/**
 * utils/template.go: each map entry replaces every "{key}" of the running
 * content by its value, one entry after the other, in Go's map iteration
 * order, which the language leaves unspecified.
 */
module Template {
  import opened Strings

  /** The placeholder of a key. */
  function Placeholder(key: string): (p: string)
    ensures |p| == |key| + 2 && p[0] == '{' && p[|p| - 1] == '}'
  {
    "{" + key + "}"
  }

  /** `order` lists every key of `variables` exactly once: one possible map iteration order. */
  predicate Enumerates(order: seq<string>, variables: map<string, string>)
  {
    && (forall k :: 0 <= k < |order| ==> order[k] in variables)
    && (forall key :: key in variables ==> key in order)
    && (forall i, j :: 0 <= i < j < |order| ==> order[i] != order[j])
  }

  /** The content once the keys of `order` have been applied, first key first. */
  function ApplyAll(content: string, variables: map<string, string>, order: seq<string>): string
    requires forall k :: 0 <= k < |order| ==> order[k] in variables
    decreases |order|
  {
    if order == [] then content
    else ApplyAll(ReplaceAll(content, Placeholder(order[0]), variables[order[0]]), variables, order[1..])
  }

  /** `UseTemplate(content, variables)`, with `order` standing for the iteration order. */
  method UseTemplate(content: string, variables: map<string, string>, order: seq<string>) returns (r: string)
    requires Enumerates(order, variables)
    ensures r == ApplyAll(content, variables, order)
  {
    r := content;
    var i := 0;
    while i < |order|
      invariant 0 <= i <= |order|
      invariant ApplyAll(r, variables, order[i..]) == ApplyAll(content, variables, order)
    {
      var key := order[i];
      r := ReplaceAll(r, Placeholder(key), variables[key]);
      assert order[i..][1..] == order[i + 1..];
      i := i + 1;
    }
  }

  /** With no variables the content comes back unchanged. */
  lemma EmptyMap(content: string, variables: map<string, string>, order: seq<string>)
    requires variables == map[] && Enumerates(order, variables)
    ensures ApplyAll(content, variables, order) == content
  {
    NoPlaceholders(content, variables, order);
  }

  /** With one variable the result is `strings.ReplaceAll` of its placeholder. */
  lemma SingleKey(content: string, key: string, value: string, order: seq<string>)
    requires Enumerates(order, map[key := value])
    ensures ApplyAll(content, map[key := value], order) == ReplaceAll(content, Placeholder(key), value)
  {
    assert key in order;
    assert order[0] == key;
    DistinctCount(order);
    assert (set x | x in order) == {key};
    assert order == [key];
  }

  /** A list without repetitions has as many elements as the set of its elements. */
  lemma {:induction false} DistinctCount(order: seq<string>)
    requires forall i, j :: 0 <= i < j < |order| ==> order[i] != order[j]
    ensures |set x | x in order| == |order|
  {
    if order != [] {
      var rest := order[1..];
      DistinctCount(rest);
      assert (set x | x in order) == {order[0]} + (set x | x in rest);
      assert order[0] !in rest;
    }
  }

  /** Content holding no placeholder of any key comes back unchanged, whatever the order. */
  lemma {:induction false} NoPlaceholders(content: string, variables: map<string, string>, order: seq<string>)
    requires forall k :: 0 <= k < |order| ==> order[k] in variables
    requires forall key :: key in variables ==> !Contains(content, Placeholder(key))
    ensures ApplyAll(content, variables, order) == content
    decreases |order|
  {
    if order != [] {
      ReplaceAllAbsent(content, Placeholder(order[0]), variables[order[0]]);
      NoPlaceholders(content, variables, order[1..]);
    }
  }
}
