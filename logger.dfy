/**
 * utils/logger.go: the logger appends one line per message to a file in its
 * folder. It keeps one file per calendar day, picks the newest of its own
 * files that is less than 30 days old, removes its older files and creates a
 * new file, named after the Unix time it was made, when the day has changed.
 *
 * The file system, the clock and the md5 digests are the `System`
 * parameter; the folder listing is a sequence in the order the listing
 * gives.
 */
module Logging {
  import opened Wrappers
  import opened Strings
  import LineBreaks
  import Decimal
  import Dates

  datatype Logger = Logger(folderPath: string, fileName: string, messagesPrefix: string)

  /** Why the logger wrote no line: no free name, or the create, the open or the write failed. */
  datatype Failure = NoFreeName | NotCreated | NotOpened | NotSaved

  /** The error `Save` hands back for each failure: a 500 with the failure's own message. */
  function Error(why: Failure): (e: AppError)
    ensures e.AppError? && e.statusCode == 500
  {
    match why
    case NoFreeName => AppError(500, "Failed to generate log file name.")
    case NotCreated => AppError(500, "Failed to create log file.")
    case NotOpened => AppError(500, "Failed to open log file.")
    case NotSaved => AppError(500, "Failed to save log.")
  }

  /** Each failure has its own message, so the error tells the caller which step failed. */
  lemma ErrorsDistinct(a: Failure, b: Failure)
    ensures Error(a) == Error(b) <==> a == b
  {
    if a != b {
      assert |Error(NoFreeName).message| == 33 && |Error(NotCreated).message| == 26;
      assert |Error(NotOpened).message| == 24 && |Error(NotSaved).message| == 19;
      assert |Error(a).message| != |Error(b).message|;
    }
  }

  /** The file to write to, or why there is none. */
  datatype Target = File(path: string) | Failed(why: Failure)

  /** How many names `createFile` draws at most before it gives up. */
  const Tries: nat := 20

  /** How long a log file is kept: 30 days, in seconds. */
  const Retention: int := 30 * Dates.Day

  // ----- formatting a message -----

  /** How many spaces `s` starts with. */
  function Indent(s: string): (n: nat)
    ensures n <= |s| && (n < |s| ==> s[n] != ' ')
    ensures forall k :: 0 <= k < n ==> s[k] == ' '
    decreases |s|
  {
    if s != [] && s[0] == ' ' then 1 + Indent(s[1..]) else 0
  }

  /** `s[i]` is a line break followed by a space: where the pattern `\n +` matches. */
  predicate IndentAt(s: string, i: nat)
  {
    i + 1 < |s| && s[i] == '\n' && s[i + 1] == ' '
  }

  /**
   * Replacing every match of the regular expression `\n +` by one space:
   * scanning from the left, a line break and all the spaces after it become
   * a single space, and the scan goes on after them.
   */
  function Collapse(s: string): (r: string)
    ensures |r| <= |s| && (r == [] <==> s == [])
    ensures r != [] && r[0] == ' ' ==> s[0] == ' ' || IndentAt(s, 0)
    decreases |s|
  {
    if s == [] then []
    else if IndentAt(s, 0) then " " + Collapse(s[1 + Indent(s[1..])..])
    else [s[0]] + Collapse(s[1..])
  }

  /** Every character of the result is a space or a character of the input. */
  lemma {:induction false} CollapseKeepsChars(s: string, c: char)
    requires c in Collapse(s)
    ensures c == ' ' || c in s
    decreases |s|
  {
    if IndentAt(s, 0) {
      var rest := s[1 + Indent(s[1..])..];
      if c != ' ' {
        assert c in Collapse(rest);
        CollapseKeepsChars(rest, c);
        assert rest == s[|s| - |rest|..];
      }
    } else {
      if c != s[0] {
        assert c in Collapse(s[1..]);
        CollapseKeepsChars(s[1..], c);
      }
    }
  }

  /** Text in which the pattern does not occur is left as it is. */
  lemma {:induction false} CollapseUnchanged(s: string)
    requires forall i :: 0 <= i < |s| ==> !IndentAt(s, i)
    ensures Collapse(s) == s
    decreases |s|
  {
    if s != [] {
      assert !IndentAt(s, 0);
      forall i | 0 <= i < |s| - 1 ensures !IndentAt(s[1..], i) {
        assert !IndentAt(s, i + 1);
      }
      CollapseUnchanged(s[1..]);
    }
  }

  /** The text after a match at `i`: past the line break and every space after it. */
  function After(s: string, i: nat): string
    requires i < |s|
  {
    s[i + 1 + Indent(s[i + 1..])..]
  }

  /**
   * The replacement as the regular expression performs it: at the leftmost
   * match, the text before it is kept, the match becomes one space, and the
   * rest is processed after the match's last space.
   */
  lemma {:induction false} CollapseLeftmost(s: string, i: nat)
    requires IndentAt(s, i)
    requires forall j :: 0 <= j < i ==> !IndentAt(s, j)
    ensures Collapse(s) == s[..i] + " " + Collapse(After(s, i))
    decreases i
  {
    if i == 0 {
      CollapseFolds(s);
      assert s[..0] + " " == " ";
    } else {
      var t := s[1..];
      ShiftMatches(s, i);
      CollapseLeftmost(t, i - 1);
      var tail := Collapse(After(s, i));
      assert Collapse(t) == t[..i - 1] + " " + tail;
      CollapseCopies(s);
      PrefixAfterFirst(s, i, tail);
    }
  }

  /** The first `i` characters of `s` are its first character and then the first `i - 1` of the rest. */
  lemma PrefixAfterFirst(s: string, i: nat, u: string)
    requires 0 < i <= |s|
    ensures [s[0]] + (s[1..][..i - 1] + " " + u) == s[..i] + " " + u
  {
    assert s[..i] == [s[0]] + s[1..][..i - 1];
  }

  /** Where the pattern matches at the start, the break and its spaces become one space. */
  lemma CollapseFolds(s: string)
    requires IndentAt(s, 0)
    ensures Collapse(s) == " " + Collapse(s[1 + Indent(s[1..])..])
  {
  }

  /** Where the pattern does not match at the start, the first character is kept. */
  lemma CollapseCopies(s: string)
    requires s != [] && !IndentAt(s, 0)
    ensures Collapse(s) == [s[0]] + Collapse(s[1..])
  {
  }

  /** Dropping the first character moves every match one place to the left. */
  lemma ShiftMatches(s: string, i: nat)
    requires 0 < i && IndentAt(s, i)
    requires forall j :: 0 <= j < i ==> !IndentAt(s, j)
    ensures !IndentAt(s, 0) && IndentAt(s[1..], i - 1)
    ensures forall j :: 0 <= j < i - 1 ==> !IndentAt(s[1..], j)
    ensures After(s[1..], i - 1) == After(s, i)
  {
    var t := s[1..];
    forall j | 0 <= j < i - 1 ensures !IndentAt(t, j) {
      assert !IndentAt(s, j + 1);
    }
    assert t[i..] == s[i + 1..];
  }

  /** No line break of `s` is followed by a line that starts with a space. */
  predicate NoIndentedLine(s: string)
  {
    forall i :: 0 <= i < |s| ==> !IndentAt(s, i)
  }

  /** No blank line of `s` is followed by an indented line. */
  predicate NoBlankBeforeIndent(s: string)
  {
    forall i :: 0 <= i < |s| - 1 ==> !(s[i] == '\n' && IndentAt(s, i + 1))
  }

  /**
   * No line of the result starts with a space unless the input held a blank
   * line followed by an indented one: a break is folded only together with
   * the spaces right after it.
   */
  lemma {:induction false} CollapseFlush(s: string)
    requires NoBlankBeforeIndent(s)
    ensures NoIndentedLine(Collapse(s))
    decreases |s|
  {
    if s != [] {
      if IndentAt(s, 0) {
        var rest := s[1 + Indent(s[1..])..];
        FoldedRestClean(s);
        CollapseFlush(rest);
        CollapseFolds(s);
        assert Collapse(s) == " " + Collapse(rest);
        FlushAfterSpace(Collapse(rest));
      } else {
        CopiedRestClean(s);
        CollapseFlush(s[1..]);
        CopiedFlush(s);
      }
    }
  }

  /** What follows a folded match keeps the input's property. */
  lemma FoldedRestClean(s: string)
    requires IndentAt(s, 0) && NoBlankBeforeIndent(s)
    ensures NoBlankBeforeIndent(s[1 + Indent(s[1..])..])
  {
    var n := 1 + Indent(s[1..]);
    var rest := s[n..];
    forall i | 0 <= i < |rest| - 1 ensures !(rest[i] == '\n' && IndentAt(rest, i + 1)) {
      assert rest[i] == s[i + n] && rest[i + 1] == s[i + n + 1];
      assert !(s[i + n] == '\n' && IndentAt(s, i + n + 1));
    }
  }

  /** A space put before text without indented lines adds none. */
  lemma FlushAfterSpace(r: string)
    requires NoIndentedLine(r)
    ensures NoIndentedLine(" " + r)
  {
    var t := " " + r;
    forall i | 0 <= i < |t| ensures !IndentAt(t, i) {
      if i > 0 {
        assert !IndentAt(r, i - 1);
      }
    }
  }

  /** The rest after a copied first character keeps the input's property. */
  lemma CopiedRestClean(s: string)
    requires s != [] && NoBlankBeforeIndent(s)
    ensures NoBlankBeforeIndent(s[1..])
  {
    var rest := s[1..];
    forall i | 0 <= i < |rest| - 1 ensures !(rest[i] == '\n' && IndentAt(rest, i + 1)) {
      assert !(s[i + 1] == '\n' && IndentAt(s, i + 2));
    }
  }

  /** Copying a first character that starts no match adds no indented line. */
  lemma CopiedFlush(s: string)
    requires s != [] && !IndentAt(s, 0) && NoBlankBeforeIndent(s)
    requires NoIndentedLine(Collapse(s[1..]))
    ensures NoIndentedLine(Collapse(s))
  {
    var rest := s[1..];
    CollapseCopies(s);
    var r := Collapse(s);
    forall i | 0 <= i < |r| ensures !IndentAt(r, i) {
      if i > 0 {
        assert !IndentAt(Collapse(rest), i - 1);
      } else if r[0] == '\n' && |r| > 1 {
        assert s[0] == '\n';
        assert !IndentAt(rest, 0);
        assert !(s[0] == '\n' && IndentAt(s, 1));
      }
    }
  }

  /**
   * A blank line before an indented line keeps its break: only the second
   * break is folded, together with the one space after it.
   */
  lemma BlankLineKept(s: string)
    requires |s| >= 3 && s[0] == '\n' && s[1] == '\n' && s[2] == ' '
    requires |s| == 3 || s[3] != ' '
    ensures Collapse(s) == "\n " + Collapse(s[3..])
  {
    var u := s[1..];
    assert !IndentAt(s, 0) && u[2..] == s[3..];
    CollapseCopies(s);
    FoldedIndent(u);
    Regroup('\n', ' ', Collapse(s[3..]));
  }

  /** Two characters put in front of a text one at a time, or together. */
  lemma Regroup(a: char, b: char, x: string)
    ensures [a] + ([b] + x) == [a, b] + x
  {
  }

  /** A break and one space before text that does not start with a space become one space. */
  lemma FoldedIndent(u: string)
    requires |u| >= 2 && u[0] == '\n' && u[1] == ' '
    requires |u| == 2 || u[2] != ' '
    ensures Collapse(u) == " " + Collapse(u[2..])
  {
    var rest := u[1..];
    assert Indent(rest) == 1 by {
      assert rest[1..] == u[2..];
    }
    CollapseFolds(u);
  }

  /** The line's opening: the time between brackets, then the prefix when there is one, each followed by a space. */
  function Head(stamp: string, prefix: string): string
  {
    "[" + stamp + "] " + (if prefix != "" then prefix + " " else "")
  }

  /** The message as the line carries it: line breaks made "\n", then indented lines folded. */
  function MessageText(message: string): string
  {
    Collapse(LineBreaks.FormatLineBreaks(message))
  }

  /** `formatMessage`: the line appended for `message`, with `stamp` the current time as `time.DateTime` text. */
  function FormatMessage(logger: Logger, stamp: string, message: string): string
  {
    TrimSpace(Head(stamp, logger.messagesPrefix) + MessageText(message)) + "\n"
  }

  /**
   * A message with something to show is written after the time and the
   * prefix, without its trailing white space; a blank message leaves the
   * opening alone, without its trailing spaces.
   */
  lemma FormatMessageParts(logger: Logger, stamp: string, message: string)
    ensures var text := MessageText(message);
      var head := Head(stamp, logger.messagesPrefix);
      FormatMessage(logger, stamp, message)
        == (if AllSpace(text) then TrimRight(head) else head + TrimRight(text)) + "\n"
  {
    TrimSpaceAfter(Head(stamp, logger.messagesPrefix), MessageText(message));
  }

  /**
   * A line as the logger writes it: the bracketed time first, one line break
   * last, and no white space right before that break.
   */
  predicate WellFormedLine(line: string, stamp: string)
  {
    && StartsWith(line, "[" + stamp + "]")
    && |line| >= |stamp| + 3 && line[|line| - 1] == '\n' && !IsSpace(line[|line| - 2])
  }

  /** Every line the logger formats is well formed, whatever the message. */
  lemma LineShape(logger: Logger, stamp: string, message: string)
    ensures WellFormedLine(FormatMessage(logger, stamp, message), stamp)
  {
    TextLineShape(stamp, logger.messagesPrefix, MessageText(message));
  }

  /** ... because trimming keeps the bracketed opening and leaves a non-space character last, for any text. */
  lemma TextLineShape(stamp: string, prefix: string, text: string)
    ensures WellFormedLine(TrimSpace(Head(stamp, prefix) + text) + "\n", stamp)
  {
    var head := Head(stamp, prefix);
    assert head[..|stamp| + 2] == "[" + stamp + "]";
    OpenedLine(stamp, head, text);
  }

  /** Any head that opens with the bracketed time gives a well-formed line, whatever text follows it. */
  lemma OpenedLine(stamp: string, head: string, text: string)
    requires StartsWith(head, "[" + stamp + "]")
    ensures WellFormedLine(TrimSpace(head + text) + "\n", stamp)
  {
    var n := |stamp| + 2;
    assert head[..n] == "[" + stamp + "]";
    assert head[0] == '[' && head[n - 1] == ']';
    KeptOpening(head, text, n);
    ClosedLine(stamp, TrimSpace(head + text));
  }

  /** A text that opens with the bracketed time and ends with a non-space character, closed by a line break. */
  lemma ClosedLine(stamp: string, trimmed: string)
    requires StartsWith(trimmed, "[" + stamp + "]")
    requires trimmed == [] || !IsSpace(trimmed[|trimmed| - 1])
    ensures WellFormedLine(trimmed + "\n", stamp)
  {
    var opening := "[" + stamp + "]";
    var line := trimmed + "\n";
    assert |opening| == |stamp| + 2 && |line| == |trimmed| + 1;
    assert line[..|opening|] == trimmed[..|opening|];
    assert line[|line| - 2] == trimmed[|trimmed| - 1];
  }

  /** The message part of a line holds no carriage return: every "\r" became a line break. */
  lemma NoCarriageReturnInText(message: string)
    ensures '\r' !in MessageText(message)
  {
    LineBreaks.NoCarriageReturn(message);
    if '\r' in MessageText(message) {
      CollapseKeepsChars(LineBreaks.FormatLineBreaks(message), '\r');
    }
  }

  /** A head that starts and ends its first `n` characters with non-space ones keeps them through the trimming. */
  lemma KeptOpening(head: string, text: string, n: nat)
    requires 0 < n <= |head| && !IsSpace(head[0]) && !IsSpace(head[n - 1])
    ensures var trimmed := TrimSpace(head + text);
      n <= |trimmed| && trimmed[..n] == head[..n]
  {
    TrimSpaceAfter(head, text);
    if AllSpace(text) {
      TrimRightKeeps(head, n - 1);
    } else {
      assert (head + TrimRight(text))[..n] == head[..n];
    }
  }

  /** A message on one line without surrounding white space is written as it is, after the opening. */
  lemma PlainMessage(logger: Logger, stamp: string, message: string)
    requires '\r' !in message && '\n' !in message
    requires message != [] && !IsSpace(message[|message| - 1])
    ensures FormatMessage(logger, stamp, message) == Head(stamp, logger.messagesPrefix) + message + "\n"
  {
    LineBreaks.Unchanged(message);
    CollapseUnchanged(message);
    FormatMessageParts(logger, stamp, message);
    assert !AllSpace(message);
  }

  // ----- choosing the file -----

  /**
   * What the logger asks of its surroundings:
   * - unixAt(n): `time.Now().Unix()` when the n-th file name is drawn;
   * - digestAt(n): the `%x` text of the md5 sum taken for the n-th name;
   * - absent(name): `os.Stat` of the file fails with a not-exist error;
   * - creates(name): `os.Create` of the file succeeds;
   * - dateOf(t): the local calendar day of Unix time t;
   * - opens(name): opening the file for appending succeeds;
   * - writes(name, line): writing the line to it succeeds.
   */
  datatype System = System(unixAt: nat -> int, digestAt: nat -> string, absent: string -> bool,
                           creates: string -> bool, dateOf: int -> int, opens: string -> bool,
                           writes: (string, string) -> bool)

  /** The n-th name `createFile` draws: creation time, digest and the logger's file name, joined by '-'. */
  function DrawName(logger: Logger, sys: System, n: nat): (name: string)
    ensures |name| >= 3
  {
    Decimal.Itoa(sys.unixAt(n)) + "-" + sys.digestAt(n) + "-" + logger.fileName
  }

  /** The name of draw `n` is free: no file of that name is in the folder. */
  predicate Free(logger: Logger, sys: System, n: nat)
  {
    sys.absent(DrawName(logger, sys, n))
  }

  /** Every draw from `from` on, before `upto`, has a name that is already taken. */
  predicate Taken(logger: Logger, sys: System, from: nat, upto: nat)
  {
    forall n :: from <= n < upto ==> !Free(logger, sys, n)
  }

  /** The first draw from `n` on, before `limit`, whose name is free; `limit` when there is none. */
  function Probe(logger: Logger, sys: System, n: nat, limit: nat): (k: nat)
    requires n <= limit
    ensures n <= k <= limit
    ensures k < limit ==> Free(logger, sys, k)
    ensures forall m :: n <= m < k ==> !Free(logger, sys, m)
    decreases limit - n
  {
    if n == limit || Free(logger, sys, n) then n else Probe(logger, sys, n + 1, limit)
  }

  /** The first free draw is the one `Probe` finds. */
  lemma FirstFree(logger: Logger, sys: System, from: nat, n: nat)
    requires from <= n < from + Tries && Free(logger, sys, n)
    requires forall m :: from <= m < n ==> !Free(logger, sys, m)
    ensures Probe(logger, sys, from, from + Tries) == n
  {
    var k := Probe(logger, sys, from, from + Tries);
    assert k <= n;
    assert k >= n;
  }

  /** The outcome of `createFile`: the file made, or why none was, and the number of the next draw. */
  datatype Drawn = Drawn(name: Target, next: nat)

  /**
   * `createFile`, drawing names from draw number `from` on: the first free
   * name among at most 20 is created; when all 20 are taken, or the create
   * fails, a 500 error is the outcome.
   */
  function CreateOutcome(logger: Logger, sys: System, from: nat): (out: Drawn)
    ensures from < out.next <= from + Tries
  {
    var k := Probe(logger, sys, from, from + Tries);
    if k == from + Tries then Drawn(Failed(NoFreeName), k)
    else if !sys.creates(DrawName(logger, sys, k)) then Drawn(Failed(NotCreated), k + 1)
    else Drawn(File(DrawName(logger, sys, k)), k + 1)
  }

  /** No name could be generated exactly when all 20 names drawn are taken. */
  lemma NoFreeNameWhenTaken(logger: Logger, sys: System, from: nat)
    ensures var out := CreateOutcome(logger, sys, from);
      out.name == Failed(NoFreeName) <==> Taken(logger, sys, from, from + Tries)
  {
    var k := Probe(logger, sys, from, from + Tries);
    if k < from + Tries {
      assert Free(logger, sys, k);
    }
  }

  /** When a free name was drawn, only its create can have failed. */
  lemma CreateFailures(logger: Logger, sys: System, from: nat)
    ensures var out := CreateOutcome(logger, sys, from);
      out.name.Failed? ==> out.name == Failed(NoFreeName) || out.name == Failed(NotCreated)
    ensures var out := CreateOutcome(logger, sys, from);
      out.name == Failed(NotCreated) ==>
        Free(logger, sys, out.next - 1) && !sys.creates(DrawName(logger, sys, out.next - 1))
  {
    var k := Probe(logger, sys, from, from + Tries);
    if k < from + Tries {
      assert CreateOutcome(logger, sys, from).next - 1 == k;
    }
  }

  /** The file made is the first free name drawn, and the create of it succeeded. */
  lemma CreatedFirstFree(logger: Logger, sys: System, from: nat)
    ensures var out := CreateOutcome(logger, sys, from);
      out.name.File? ==>
        && out.name.path == DrawName(logger, sys, out.next - 1)
        && Free(logger, sys, out.next - 1) && sys.creates(out.name.path)
        && Taken(logger, sys, from, out.next - 1)
  {
    var k := Probe(logger, sys, from, from + Tries);
    if k < from + Tries {
      assert CreateOutcome(logger, sys, from).next - 1 == k;
    }
  }

  /** `createFile`, drawing names from draw number `from` on. */
  method CreateFile(logger: Logger, sys: System, from: nat) returns (name: Target, next: nat)
    ensures Drawn(name, next) == CreateOutcome(logger, sys, from)
  {
    var newName := "";
    var fileExists := true;
    var i := 0;
    ghost var found := from;
    while i < Tries && fileExists
      invariant 0 <= i <= Tries
      invariant fileExists ==> forall m :: from <= m < from + i ==> !Free(logger, sys, m)
      invariant !fileExists ==>
        found + 1 == from + i && Probe(logger, sys, from, from + Tries) == found && newName == DrawName(logger, sys, found)
    {
      newName := DrawName(logger, sys, from + i);
      if sys.absent(newName) {
        found := from + i;
        FirstFree(logger, sys, from, found);
        fileExists := false;
      }
      i := i + 1;
    }
    if newName == "" || fileExists {
      return Failed(NoFreeName), from + i;
    }
    if !sys.creates(newName) {
      return Failed(NotCreated), from + i;
    }
    return File(newName), from + i;
  }

  /** The name of a file whose last '-'-separated part is the logger's file name is one of the logger's. */
  predicate Named(logger: Logger, name: string)
  {
    Last(Split(name, '-')) == logger.fileName
  }

  /** A drawn name is recognised as the logger's own exactly when the file name has no '-'. */
  lemma DrawnNameIsOwn(logger: Logger, sys: System, n: nat)
    ensures Named(logger, DrawName(logger, sys, n)) <==> '-' !in logger.fileName
  {
    var front := Decimal.Itoa(sys.unixAt(n)) + "-" + sys.digestAt(n);
    var c := logger.fileName;
    SplitAround(front, '-', c);
    var parts := Split(c, '-');
    assert Last(Split(DrawName(logger, sys, n), '-')) == Last(parts);
    if '-' in c {
      SplitPieces(c, '-');
      assert '-' !in parts[|parts| - 1];
    } else {
      SplitWithoutSeparator(c, '-');
    }
  }

  /** A listed entry: its name, whether it is a directory, and its modification time when `os.Stat` reads it. */
  datatype FileInfo = FileInfo(name: string, isDir: bool, modTime: Option<int>)

  /** A file that belongs to the logger, whose time could be read. */
  predicate Own(logger: Logger, f: FileInfo)
  {
    !f.isDir && Named(logger, f.name) && f.modTime.Some?
  }

  /** A file modified 30 days ago or earlier. */
  predicate Expired(f: FileInfo, now: int)
    requires f.modTime.Some?
  {
    f.modTime.value <= now - Retention
  }

  /** A file the logger may go on writing to. */
  predicate Live(logger: Logger, f: FileInfo, now: int)
  {
    Own(logger, f) && !Expired(f, now)
  }

  /**
   * The position of the file written to: the live file with the latest
   * modification time, the first of them in the listing on a tie; none when
   * no file is live.
   */
  function Newest(logger: Logger, files: seq<FileInfo>, now: int): (r: Option<nat>)
    ensures r.None? <==> forall k :: 0 <= k < |files| ==> !Live(logger, files[k], now)
    ensures r.Some? ==> r.value < |files| && Live(logger, files[r.value], now)
    ensures r.Some? ==> forall k :: 0 <= k < |files| && Live(logger, files[k], now) ==>
      files[k].modTime.value <= files[r.value].modTime.value
    ensures r.Some? ==> forall k :: 0 <= k < r.value && Live(logger, files[k], now) ==>
      files[k].modTime.value < files[r.value].modTime.value
    decreases |files|
  {
    if files == [] then None
    else
      var n := |files| - 1;
      var before := Newest(logger, files[..n], now);
      if !Live(logger, files[n], now) then before
      else if before.None? then Some(n)
      else if files[n].modTime.value > files[before.value].modTime.value then Some(n)
      else before
  }

  /** The file written to, if any. */
  function Chosen(logger: Logger, files: seq<FileInfo>, now: int): Option<FileInfo>
  {
    match Newest(logger, files, now)
    case None => None
    case Some(k) => Some(files[k])
  }

  /** The names of the logger's expired files, in listing order: each is removed. */
  function Removed(logger: Logger, files: seq<FileInfo>, now: int): (r: seq<string>)
    ensures forall k :: 0 <= k < |files| && Own(logger, files[k]) && Expired(files[k], now) ==> files[k].name in r
    ensures forall x :: x in r ==> exists k :: 0 <= k < |files| && files[k].name == x && Own(logger, files[k]) && Expired(files[k], now)
    decreases |files|
  {
    if files == [] then []
    else
      var n := |files| - 1;
      var f := files[n];
      Removed(logger, files[..n], now) + (if Own(logger, f) && Expired(f, now) then [f.name] else [])
  }

  /** The newest live file once `f` is looked at, with `best` the newest before it; an earlier file wins a tie. */
  function Newer(logger: Logger, best: Option<FileInfo>, f: FileInfo, now: int): Option<FileInfo>
    requires best.Some? ==> best.value.modTime.Some?
  {
    if !Live(logger, f, now) then best
    else if best.None? || f.modTime.value > best.value.modTime.value then Some(f)
    else best
  }

  /** The name of `f` when it is one of the logger's expired files. */
  function Expiring(logger: Logger, f: FileInfo, now: int): seq<string>
  {
    if Own(logger, f) && Expired(f, now) then [f.name] else []
  }

  /** Taking one more entry of the listing into account. */
  lemma ChosenStep(logger: Logger, files: seq<FileInfo>, now: int, i: nat)
    requires i < |files|
    ensures var before := Chosen(logger, files[..i], now);
      before.Some? ==> before.value.modTime.Some?
    ensures Chosen(logger, files[..i + 1], now) == Newer(logger, Chosen(logger, files[..i], now), files[i], now)
  {
    assert files[..i + 1][..i] == files[..i];
  }

  lemma RemovedStep(logger: Logger, files: seq<FileInfo>, now: int, i: nat)
    requires i < |files|
    ensures Removed(logger, files[..i + 1], now) == Removed(logger, files[..i], now) + Expiring(logger, files[i], now)
  {
    assert files[..i + 1][..i] == files[..i];
  }

  /** One pass of the scan's loop: `file` is skipped, removed, or becomes the newest live file. */
  method Visit(logger: Logger, file: FileInfo, now: int, current: Option<FileInfo>, removed: seq<string>)
    returns (newest: Option<FileInfo>, expired: seq<string>)
    requires current.Some? ==> current.value.modTime.Some?
    ensures newest == Newer(logger, current, file, now)
    ensures expired == removed + Expiring(logger, file, now)
  {
    newest, expired := current, removed;
    if file.isDir {
      return;
    }
    var parts := Split(file.name, '-');
    if parts[|parts| - 1] != logger.fileName {
      return;
    }
    if file.modTime.None? {
      return;
    }
    var fileTime := file.modTime.value;
    if fileTime <= now - Retention {
      expired := removed + [file.name];
      return;
    }
    if current.None? {
      newest := Some(file);
      return;
    }
    if fileTime > current.value.modTime.value {
      newest := Some(file);
    }
  }

  /** The scan of the folder listing: expired files are removed, and the newest live file is kept. */
  method Scan(logger: Logger, files: seq<FileInfo>, now: int) returns (current: Option<FileInfo>, removed: seq<string>)
    ensures current == Chosen(logger, files, now)
    ensures removed == Removed(logger, files, now)
  {
    current := None;
    removed := [];
    for i := 0 to |files|
      invariant current == Chosen(logger, files[..i], now)
      invariant removed == Removed(logger, files[..i], now)
    {
      ChosenStep(logger, files, now, i);
      RemovedStep(logger, files, now, i);
      current, removed := Visit(logger, files[i], now, current, removed);
    }
    assert files[..|files|] == files;
  }

  // ----- the file to write to -----

  /** What `getCurrentFilePath` leaves behind once the folder is listed: the file to write to, the files removed and created, and the number of the next draw. */
  datatype Current = Current(name: Target, removed: seq<string>, created: seq<string>, next: nat)

  /** The file a `createFile` outcome made, if any. */
  function Made(d: Drawn): (made: seq<string>)
    ensures |made| <= 1 && (made != [] <==> d.name.File?)
  {
    if d.name.File? then [d.name.path] else []
  }

  /** A new file is created, after the scan removed `removed`. */
  function Renewed(logger: Logger, sys: System, from: nat, removed: seq<string>): Current
  {
    var d := CreateOutcome(logger, sys, from);
    Current(d.name, removed, Made(d), d.next)
  }

  /**
   * The creation time the head of a chosen file's name gives, as `Atoi`
   * reads it, when the name has at least two '-'-separated parts and the
   * first has no '.'; otherwise the day is not checked.
   */
  function HeadTime(name: string): Option<Decimal.Parsed>
  {
    var parts := Split(name, '-');
    if |parts| >= 2 && '.' !in parts[0] then Some(Decimal.Atoi(parts[0])) else None
  }

  /**
   * A head that is not a number costs a file at once; the failed parse then
   * dates the chosen file at the value `Atoi` reported with its error, and
   * when that falls on another day a second file is created.
   */
  function CreateTwice(logger: Logger, sys: System, from: nat, removed: seq<string>): Current
  {
    var first := CreateOutcome(logger, sys, from);
    if first.name.Failed? then Renewed(logger, sys, from, removed)
    else
      var second := CreateOutcome(logger, sys, first.next);
      Current(second.name, removed, [first.name.path] + Made(second), second.next)
  }

  /** What follows the scan when it chose `f`: the file is kept unless its head dates it on another day than `now`. */
  function Rollover(logger: Logger, sys: System, f: FileInfo, now: int, from: nat, removed: seq<string>): Current
  {
    match HeadTime(f.name)
    case None => Current(File(f.name), removed, [], from)
    case Some(parsed) =>
      var sameDay := sys.dateOf(parsed.value) == sys.dateOf(now);
      if parsed.ok && sameDay then Current(File(f.name), removed, [], from)
      else if parsed.ok || sameDay then Renewed(logger, sys, from, removed)
      else CreateTwice(logger, sys, from, removed)
  }

  /** `getCurrentFilePath` after the folder checks: the scan, then a new file when none is live or the day changed. */
  function CurrentOutcome(logger: Logger, sys: System, files: seq<FileInfo>, now: int, from: nat): Current
  {
    var removed := Removed(logger, files, now);
    match Chosen(logger, files, now)
    case None => Renewed(logger, sys, from, removed)
    case Some(f) => Rollover(logger, sys, f, now, from, removed)
  }

  /** The day check on the chosen file `f`. */
  method CheckRollover(logger: Logger, sys: System, f: FileInfo, now: int, from: nat, removed: seq<string>)
    returns (c: Current)
    ensures c == Rollover(logger, sys, f, now, from, removed)
  {
    var head := HeadTime(f.name);
    if head.None? {
      return Current(File(f.name), removed, [], from);
    }
    var parsed := head.value;
    var sameDay := sys.dateOf(now) == sys.dateOf(parsed.value);
    if parsed.ok && sameDay {
      return Current(File(f.name), removed, [], from);
    }
    var name, next := CreateFile(logger, sys, from);
    if parsed.ok || name.Failed? || sameDay {
      return Current(name, removed, Made(Drawn(name, next)), next);
    }
    var second, after := CreateFile(logger, sys, next);
    return Current(second, removed, [name.path] + Made(Drawn(second, after)), after);
  }

  /** `getCurrentFilePath` once the folder is listed as `files`, drawing names from draw number `from` on. */
  method CurrentFile(logger: Logger, sys: System, files: seq<FileInfo>, now: int, from: nat) returns (c: Current)
    ensures c == CurrentOutcome(logger, sys, files, now, from)
  {
    var current, removed := Scan(logger, files, now);
    if current.Some? {
      c := CheckRollover(logger, sys, current.value, now, from, removed);
    } else {
      var name, next := CreateFile(logger, sys, from);
      c := Current(name, removed, if name.File? then [name.path] else [], next);
    }
  }

  /**
   * The file written to is the chosen one when nothing was created, and
   * otherwise the last file created; at most two files are created.
   */
  lemma CurrentIsChosenOrCreated(logger: Logger, sys: System, files: seq<FileInfo>, now: int, from: nat)
    ensures var c := CurrentOutcome(logger, sys, files, now, from);
      && c.removed == Removed(logger, files, now) && |c.created| <= 2
      && (c.name.File? && c.created == [] ==> Chosen(logger, files, now).Some? && c.name.path == Chosen(logger, files, now).value.name)
      && (c.name.File? && c.created != [] ==> c.name.path == Last(c.created))
  {
    var removed := Removed(logger, files, now);
    match Chosen(logger, files, now)
    case None =>
      RenewedShape(logger, sys, from, removed);
    case Some(f) =>
      RolloverShape(logger, sys, f, now, from, removed);
  }

  /** A renewal writes to the file it created, if any. */
  lemma RenewedShape(logger: Logger, sys: System, from: nat, removed: seq<string>)
    ensures var c := Renewed(logger, sys, from, removed);
      c.removed == removed && |c.created| <= 1 && (c.name.File? ==> c.created == [c.name.path])
  {
  }

  /** The day check keeps the chosen file or writes to the last file it created. */
  lemma RolloverShape(logger: Logger, sys: System, f: FileInfo, now: int, from: nat, removed: seq<string>)
    ensures var c := Rollover(logger, sys, f, now, from, removed);
      && c.removed == removed && |c.created| <= 2
      && (c.name.File? && c.created == [] ==> c.name.path == f.name)
      && (c.name.File? && c.created != [] ==> c.name.path == Last(c.created))
  {
    match HeadTime(f.name)
    case None =>
    case Some(parsed) =>
      var sameDay := sys.dateOf(parsed.value) == sys.dateOf(now);
      if parsed.ok && sameDay {
      } else if parsed.ok || sameDay {
        RenewedShape(logger, sys, from, removed);
      } else {
        CreateTwiceShape(logger, sys, from, removed);
      }
  }

  /** Creating twice writes to the second file when it was made, and at most two files are made. */
  lemma CreateTwiceShape(logger: Logger, sys: System, from: nat, removed: seq<string>)
    ensures var c := CreateTwice(logger, sys, from, removed);
      && c.removed == removed && |c.created| <= 2
      && (c.name.File? ==> c.created != [] && c.name.path == Last(c.created))
  {
    var first := CreateOutcome(logger, sys, from);
    if first.name.Failed? {
      RenewedShape(logger, sys, from, removed);
    } else {
      var second := CreateOutcome(logger, sys, first.next);
      if second.name.File? {
        assert Made(second) == [second.name.path];
      }
    }
  }

  /** With no live file of its own in the folder, the logger creates one. */
  lemma NoLiveFileCreates(logger: Logger, sys: System, files: seq<FileInfo>, now: int, from: nat)
    requires forall k :: 0 <= k < |files| ==> !Live(logger, files[k], now)
    ensures CurrentOutcome(logger, sys, files, now, from) == Renewed(logger, sys, from, Removed(logger, files, now))
  {
  }

  /** A file name with a '-' in it never matches a name's last part, so every call creates a new file. */
  lemma DashedFileName(logger: Logger, sys: System, files: seq<FileInfo>, now: int, from: nat)
    requires '-' in logger.fileName
    ensures CurrentOutcome(logger, sys, files, now, from) == Renewed(logger, sys, from, Removed(logger, files, now))
  {
    forall k | 0 <= k < |files| ensures !Live(logger, files[k], now) {
      var parts := Split(files[k].name, '-');
      SplitPieces(files[k].name, '-');
      assert '-' !in parts[|parts| - 1];
    }
  }

  /** The head of a drawn name is the decimal time it was drawn at, and nothing else. */
  lemma DrawnNameHead(logger: Logger, sys: System, n: nat)
    requires sys.unixAt(n) >= 0
    ensures var parts := Split(DrawName(logger, sys, n), '-');
      |parts| >= 2 && parts[0] == Decimal.Itoa(sys.unixAt(n))
  {
    var head := Decimal.Itoa(sys.unixAt(n));
    var tail := sys.digestAt(n) + "-" + logger.fileName;
    assert DrawName(logger, sys, n) == head + ['-'] + tail;
    SplitAfterPiece(head, '-', tail);
  }

  /**
   * A file the logger drew and created today, still its newest, is written
   * to again: the time in its name reads back as the time it was created.
   */
  lemma SameDayKept(logger: Logger, sys: System, files: seq<FileInfo>, now: int, from: nat, n: nat)
    requires Chosen(logger, files, now).Some? && Chosen(logger, files, now).value.name == DrawName(logger, sys, n)
    requires 0 <= sys.unixAt(n) <= Decimal.MaxInt64 && sys.dateOf(sys.unixAt(n)) == sys.dateOf(now)
    ensures CurrentOutcome(logger, sys, files, now, from) == Current(File(DrawName(logger, sys, n)), Removed(logger, files, now), [], from)
  {
    DrawnNameHead(logger, sys, n);
    Decimal.AtoiOfItoa(sys.unixAt(n));
  }

  /** ... and on a later day a new file is created in its place. */
  lemma NewDayRenews(logger: Logger, sys: System, files: seq<FileInfo>, now: int, from: nat, n: nat)
    requires Chosen(logger, files, now).Some? && Chosen(logger, files, now).value.name == DrawName(logger, sys, n)
    requires 0 <= sys.unixAt(n) <= Decimal.MaxInt64 && sys.dateOf(sys.unixAt(n)) != sys.dateOf(now)
    ensures CurrentOutcome(logger, sys, files, now, from) == Renewed(logger, sys, from, Removed(logger, files, now))
  {
    DrawnNameHead(logger, sys, n);
    Decimal.AtoiOfItoa(sys.unixAt(n));
  }

  /**
   * When the head of the chosen file's name is not a number, a file is
   * created at once; the failed parse then dates the file at the value
   * `Atoi` reported, and unless that falls on today a second file is
   * created and written to instead.
   */
  lemma UnparsedHeadCreatesTwice(logger: Logger, sys: System, files: seq<FileInfo>, now: int, from: nat)
    requires Chosen(logger, files, now).Some?
    requires var parts := Split(Chosen(logger, files, now).value.name, '-');
      |parts| >= 2 && '.' !in parts[0] && !Decimal.Atoi(parts[0]).ok
      && sys.dateOf(Decimal.Atoi(parts[0]).value) != sys.dateOf(now)
    requires CreateOutcome(logger, sys, from).name.File?
    requires CreateOutcome(logger, sys, CreateOutcome(logger, sys, from).next).name.File?
    ensures var c := CurrentOutcome(logger, sys, files, now, from);
      |c.created| == 2 && c.name == File(c.created[1])
  {
  }

  // ----- saving a message -----

  /** What `Save` leaves behind: its error, the line written and to which file, and the file chosen. */
  datatype Saved = Saved(error: Option<AppError>, written: Option<(string, string)>, current: Current)

  /**
   * `Save(message)`, with `stamp` the time text of the moment the line is
   * formatted: the file is chosen, opened and the formatted line appended.
   */
  function SaveOutcome(logger: Logger, sys: System, files: seq<FileInfo>, now: int, from: nat, stamp: string,
                       message: string): (out: Saved)
    ensures out.current == CurrentOutcome(logger, sys, files, now, from)
    ensures out.error.None? <==> out.written.Some?
    ensures out.written.Some? ==>
      && out.current.name == File(out.written.value.0)
      && out.written.value.1 == FormatMessage(logger, stamp, message)
    ensures out.error.Some? ==>
      if out.current.name.Failed? then out.error == Some(Error(out.current.name.why))
      else if !sys.opens(out.current.name.path) then out.error == Some(Error(NotOpened))
      else out.error == Some(Error(NotSaved)) && !sys.writes(out.current.name.path, FormatMessage(logger, stamp, message))
  {
    var c := CurrentOutcome(logger, sys, files, now, from);
    if c.name.Failed? then Saved(Some(Error(c.name.why)), None, c)
    else if !sys.opens(c.name.path) then Saved(Some(Error(NotOpened)), None, c)
    else
      var line := FormatMessage(logger, stamp, message);
      if !sys.writes(c.name.path, line) then Saved(Some(Error(NotSaved)), None, c)
      else Saved(None, Some((c.name.path, line)), c)
  }

  method Save(logger: Logger, sys: System, files: seq<FileInfo>, now: int, from: nat, stamp: string, message: string)
    returns (saved: Saved)
    ensures saved == SaveOutcome(logger, sys, files, now, from, stamp, message)
  {
    var current := CurrentFile(logger, sys, files, now, from);
    if current.name.Failed? {
      return Saved(Some(Error(current.name.why)), None, current);
    }
    var path := current.name.path;
    if !sys.opens(path) {
      return Saved(Some(Error(NotOpened)), None, current);
    }
    var line := FormatMessage(logger, stamp, message);
    if !sys.writes(path, line) {
      return Saved(Some(Error(NotSaved)), None, current);
    }
    return Saved(None, Some((path, line)), current);
  }
}
