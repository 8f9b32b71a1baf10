/**
 * utils/format_line_breaks.go: every match of `\r\n|\r`, found left to right,
 * is replaced by "\n". At a '\r' the first alternative is tried first, so a
 * "\r\n" pair becomes a single "\n".
 */
module LineBreaks {
  import opened Strings

  /** `FormatLineBreaks(content)`. */
  function FormatLineBreaks(content: string): (r: string)
    decreases |content|
  {
    if content == [] then []
    else if content[0] == '\r' then
      "\n" + FormatLineBreaks(if |content| > 1 && content[1] == '\n' then content[2..] else content[1..])
    else [content[0]] + FormatLineBreaks(content[1..])
  }

  /** The number of "\r\n" pairs, counted left to right. */
  function CountCrLf(s: string): nat
    decreases |s|
  {
    if |s| < 2 then 0
    else if s[0] == '\r' && s[1] == '\n' then 1 + CountCrLf(s[2..])
    else CountCrLf(s[1..])
  }

  /** No carriage return survives. */
  lemma {:induction false} NoCarriageReturn(content: string)
    ensures '\r' !in FormatLineBreaks(content)
    decreases |content|
  {
    if content != [] {
      if content[0] == '\r' && |content| > 1 && content[1] == '\n' {
        NoCarriageReturn(content[2..]);
      } else {
        NoCarriageReturn(content[1..]);
      }
    }
  }

  /** Text without a carriage return is returned unchanged. */
  lemma {:induction false} Unchanged(content: string)
    requires '\r' !in content
    ensures FormatLineBreaks(content) == content
    decreases |content|
  {
    if content != [] {
      Unchanged(content[1..]);
      assert [content[0]] + content[1..] == content;
    }
  }

  /** Formatting twice is formatting once. */
  lemma Idempotent(content: string)
    ensures FormatLineBreaks(FormatLineBreaks(content)) == FormatLineBreaks(content)
  {
    NoCarriageReturn(content);
    Unchanged(FormatLineBreaks(content));
  }

  /** Each pair shrinks to one character and every other character is kept. */
  lemma {:induction false} Length(content: string)
    ensures |FormatLineBreaks(content)| == |content| - CountCrLf(content)
    decreases |content|
  {
    if content != [] {
      if content[0] == '\r' && |content| > 1 && content[1] == '\n' {
        Length(content[2..]);
      } else {
        Length(content[1..]);
      }
    }
  }

  /**
   * The same text as replacing every "\r\n" by "\n" and then every remaining
   * "\r" by "\n" with `strings.ReplaceAll`: pairs and lone carriage returns
   * both become one line feed.
   */
  lemma {:induction false} AsTwoReplacements(content: string)
    ensures FormatLineBreaks(content) == ReplaceAll(ReplaceAll(content, "\r\n", "\n"), "\r", "\n")
    decreases |content|
  {
    var once := ReplaceAll(content, "\r\n", "\n");
    if |content| < 2 {
      assert once == content;
      if content != [] {
        ReplaceCrCons(content[0], []);
        assert [content[0]] + [] == content;
      }
    } else if content[..2] == "\r\n" {
      assert once == "\n" + ReplaceAll(content[2..], "\r\n", "\n");
      ReplaceCrCons('\n', ReplaceAll(content[2..], "\r\n", "\n"));
      AsTwoReplacements(content[2..]);
    } else {
      assert once == [content[0]] + ReplaceAll(content[1..], "\r\n", "\n");
      ReplaceCrCons(content[0], ReplaceAll(content[1..], "\r\n", "\n"));
      AsTwoReplacements(content[1..]);
    }
  }

  /** Replacing lone carriage returns works one character at a time. */
  lemma ReplaceCrCons(c: char, rest: string)
    ensures ReplaceAll([c] + rest, "\r", "\n") == (if c == '\r' then "\n" else [c]) + ReplaceAll(rest, "\r", "\n")
  {
    assert ([c] + rest)[..1] == [c];
    assert ([c] + rest)[1..] == rest;
  }
}
