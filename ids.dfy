/**
 * The bounded identifier retry loop that models/user_token.go, models/user.go
 * and models/login_token.go each contain: draw a UUID, test it against the
 * table, and redraw while it is taken, at most 21 draws in all.
 */
module IdGeneration {
  import opened Wrappers
  import Uuid

  /** One draw before the loop and at most 20 inside it. */
  const MaxDraws: nat := 21

  /**
   * The result of at most `attempts` draws from draw number `from` on,
   * keeping the first identifier not in `taken`, and the number of draws
   * made. A failed draw ends the search with its error; when every draw is
   * taken the search ends with `exhausted`.
   */
  function Attempt(draw: nat -> Result<string>, from: nat, taken: set<string>, attempts: nat, exhausted: AppError)
    : (out: (Result<string>, nat))
    ensures out.0.Ok? ==> out.0.value !in taken
    ensures out.1 <= attempts
    ensures attempts > 0 ==> out.1 >= 1
    decreases attempts
  {
    if attempts == 0 then (Err(exhausted), 0)
    else match draw(from)
      case Err(e) => (Err(e), 1)
      case Ok(id) =>
        if id !in taken then (Ok(id), 1)
        else
          var next := Attempt(draw, from + 1, taken, attempts - 1, exhausted);
          (next.0, next.1 + 1)
  }

  /** The outcome of a search, counted `k` draws later. */
  function Shift(out: (Result<string>, nat), k: nat): (r: (Result<string>, nat))
    ensures r.0 == out.0 && r.1 - k == out.1
  {
    (out.0, out.1 + k)
  }

  /** A search fails with `exhausted` or with the error of the draw that failed, and no other. */
  lemma {:induction false} AttemptErrors(draw: nat -> Result<string>, from: nat, taken: set<string>, attempts: nat, exhausted: AppError)
    ensures var out := Attempt(draw, from, taken, attempts, exhausted);
      out.0.Err? ==> out.0.error == exhausted || (out.1 >= 1 && draw(from + out.1 - 1) == out.0)
    decreases attempts
  {
    if attempts > 0 && draw(from).Ok? && draw(from).value in taken {
      AttemptErrors(draw, from + 1, taken, attempts - 1, exhausted);
      var next := Attempt(draw, from + 1, taken, attempts - 1, exhausted);
      assert Attempt(draw, from, taken, attempts, exhausted) == (next.0, next.1 + 1);
    }
  }

  /** When every failed draw fails with `failure`, the search fails with `exhausted` or `failure` only. */
  lemma SearchErrors(draw: nat -> Result<string>, from: nat, taken: set<string>, exhausted: AppError, failure: AppError)
    requires forall k :: draw(k).Err? ==> draw(k).error == failure
    ensures var out := Attempt(draw, from, taken, MaxDraws, exhausted);
      out.0.Err? ==> out.0.error == exhausted || out.0.error == failure
  {
    AttemptErrors(draw, from, taken, MaxDraws, exhausted);
  }

  /**
   * The search fails with `exhausted` only when every one of its draws
   * succeeded and was taken.
   */
  lemma {:induction false} ExhaustedMeansAllTaken(draw: nat -> Result<string>, from: nat, taken: set<string>, attempts: nat, exhausted: AppError)
    requires forall k :: from <= k < from + attempts ==> draw(k) != Err(exhausted)
    requires Attempt(draw, from, taken, attempts, exhausted).0 == Err(exhausted)
    ensures Attempt(draw, from, taken, attempts, exhausted).1 == attempts
    ensures forall k :: from <= k < from + attempts ==> draw(k).Ok? && draw(k).value in taken
    decreases attempts
  {
    if attempts > 0 {
      ExhaustedMeansAllTaken(draw, from + 1, taken, attempts - 1, exhausted);
    }
  }

  /** A free first draw is taken at once. */
  lemma FirstFreeDrawWins(draw: nat -> Result<string>, from: nat, taken: set<string>, attempts: nat, exhausted: AppError)
    requires attempts > 0
    requires draw(from).Ok? && draw(from).value !in taken
    ensures Attempt(draw, from, taken, attempts, exhausted) == (draw(from), 1)
  {
  }

  /** Draws that all succeeded and were all taken only delay the search. */
  lemma {:induction false} TakenPrefix(draw: nat -> Result<string>, from: nat, taken: set<string>, attempts: nat, n: nat, exhausted: AppError)
    requires n <= attempts
    requires forall k :: from <= k < from + n ==> draw(k).Ok? && draw(k).value in taken
    ensures Attempt(draw, from, taken, attempts, exhausted) == Shift(Attempt(draw, from + n, taken, attempts - n, exhausted), n)
    decreases n
  {
    if n > 0 {
      TakenPrefix(draw, from + 1, taken, attempts - 1, n - 1, exhausted);
    }
  }

  /** Draws `from` up to `from + n` all succeeded and were all taken. */
  predicate AllTaken(draw: nat -> Result<string>, from: nat, n: nat, taken: set<string>)
  {
    forall k :: from <= k < from + n ==> draw(k).Ok? && draw(k).value in taken
  }

  /** After `n` taken draws, draw number `from + n` decides the search. */
  lemma Outcome(draw: nat -> Result<string>, from: nat, taken: set<string>, n: nat, exhausted: AppError)
    requires n < MaxDraws && AllTaken(draw, from, n, taken)
    ensures var d := draw(from + n);
      var out := Attempt(draw, from, taken, MaxDraws, exhausted);
      && (d.Err? || d.value !in taken ==> out == (d, n + 1))
      && (d.Ok? && d.value in taken && n + 1 == MaxDraws ==> out == (Err(exhausted), MaxDraws))
  {
    TakenPrefix(draw, from, taken, MaxDraws, n, exhausted);
  }

  /**
   * The loop itself: one draw, then up to 20 more while the last one is
   * taken; a failed draw aborts with no further draws. Draw number k is the
   * outcome of the k-th call of GenerateUUIDv4 (over a random source,
   * `Uuid.Draws(source)`); the search starts at draw `from` and `used` is
   * how many draws it made.
   */
  method Generate(draw: nat -> Result<string>, from: nat, taken: set<string>, exhausted: AppError)
    returns (r: Result<string>, used: nat)
    ensures r == Attempt(draw, from, taken, MaxDraws, exhausted).0
    ensures used == Attempt(draw, from, taken, MaxDraws, exhausted).1
  {
    var id := draw(from);
    if id.Err? {
      Outcome(draw, from, taken, 0, exhausted);
      return id, 1;
    }
    var available := id.value !in taken;
    var i := 0;
    while i < 20 && !available
      invariant 0 <= i <= 20
      invariant id == draw(from + i) && id.Ok?
      invariant available == (id.value !in taken)
      invariant AllTaken(draw, from, i, taken)
    {
      id := draw(from + i + 1);
      i := i + 1;
      if id.Err? {
        Outcome(draw, from, taken, i, exhausted);
        return id, i + 1;
      }
      available := id.value !in taken;
    }
    Outcome(draw, from, taken, i, exhausted);
    if !available {
      return Err(exhausted), i + 1;
    }
    r, used := id, i + 1;
  }
}
