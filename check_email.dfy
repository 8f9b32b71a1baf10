/**
 * The address recogniser of utils/check_email.go: the whitespace-trimmed text
 * must match `^[\w-\.]+@([\w-]+\.)+[\w-]{2,4}$`, where `\w` is the ASCII word
 * class and `[\w-\.]` is that class together with '-' and '.'.
 */
module EmailCheck {
  import opened Strings

  /** `\w`: ASCII letters, digits and '_'. */
  predicate IsWordChar(c: char)
  {
    'a' <= c <= 'z' || 'A' <= c <= 'Z' || '0' <= c <= '9' || c == '_'
  }

  /** `[\w-\.]`, the characters of the local part. */
  predicate IsLocalChar(c: char)
  {
    IsWordChar(c) || c == '-' || c == '.'
  }

  /** `[\w-]`, the characters of a domain label. */
  predicate IsLabelChar(c: char)
  {
    IsWordChar(c) || c == '-'
  }

  predicate AllLocal(s: string)
  {
    forall k :: 0 <= k < |s| ==> IsLocalChar(s[k])
  }

  predicate AllLabel(s: string)
  {
    forall k :: 0 <= k < |s| ==> IsLabelChar(s[k])
  }

  /** `[\w-]{2,4}` at the end of the text. */
  predicate IsTopLabel(s: string)
  {
    2 <= |s| <= 4 && AllLabel(s)
  }

  /**
   * `([\w-]+\.)+[\w-]{2,4}$`, read as the regular expression reads it: a
   * non-empty label and a '.', followed either by the final label or by
   * another repetition of the group.
   */
  predicate DomainMatches(d: string)
    decreases |d|
  {
    exists j :: 0 < j < |d| && d[j] == '.' && AllLabel(d[..j]) && (IsTopLabel(d[j + 1..]) || DomainMatches(d[j + 1..]))
  }

  /** The whole anchored pattern: a non-empty local part, one '@', a matching domain. */
  predicate PatternMatches(s: string)
  {
    exists i :: 0 < i < |s| && s[i] == '@' && AllLocal(s[..i]) && DomainMatches(s[i + 1..])
  }

  /** The labels of a domain, as a reader of addresses would list them. */
  predicate LabelsOk(labels: seq<string>)
  {
    && |labels| >= 2
    && (forall k :: 0 <= k < |labels| ==> labels[k] != [] && AllLabel(labels[k]))
    && 2 <= |Last(labels)| <= 4
  }

  /**
   * A reference definition of an accepted address in terms of pieces: exactly
   * two '@'-separated parts, a non-empty local part over `[\w-\.]`, and a domain
   * of at least two non-empty '.'-separated labels over `[\w-]`, the last of
   * two to four characters.
   */
  predicate Shape(s: string)
  {
    var parts := Split(s, '@');
    |parts| == 2 && parts[0] != [] && AllLocal(parts[0]) && LabelsOk(Split(parts[1], '.'))
  }

  /** `CheckEmail(email)`: the trimmed text is an address of the reference shape. */
  function CheckEmail(email: string): (ok: bool)
    ensures ok <==> Shape(TrimSpace(email))
  {
    PatternIffShape(TrimSpace(email));
    PatternMatches(TrimSpace(email))
  }

  /** The first position of a character known to occur. */
  function IndexOf(s: string, c: char): (j: nat)
    requires c in s
    ensures j < |s| && s[j] == c && c !in s[..j]
  {
    if s[0] == c then 0
    else
      var j := 1 + IndexOf(s[1..], c);
      assert s[..j] == [s[0]] + s[1..][..j - 1];
      j
  }

  /** A split into exactly the one piece `x` means the text was `x`. */
  lemma SplitSingle(s: string, sep: char, x: string)
    requires Split(s, sep) == [x]
    ensures s == x
  {
    SplitThenJoin(s, sep);
  }

  /** Cutting a text at the first occurrence of the separator. */
  lemma SplitAtFirst(s: string, sep: char) returns (j: nat)
    requires sep in s
    ensures j < |s| && s[j] == sep && sep !in s[..j]
    ensures Split(s, sep) == [s[..j]] + Split(s[j + 1..], sep)
  {
    j := IndexOf(s, sep);
    assert s == s[..j] + [sep] + s[j + 1..];
    SplitAfterPiece(s[..j], sep, s[j + 1..]);
  }

  lemma AllLabelHasNoDot(s: string)
    requires AllLabel(s)
    ensures '.' !in s && '@' !in s
  {
    forall k | 0 <= k < |s|
      ensures s[k] != '.' && s[k] != '@'
    {
      assert IsLabelChar(s[k]);
    }
  }

  /** The regular-expression reading of a domain agrees with its list of labels. */
  lemma DomainIffLabels(d: string)
    ensures DomainMatches(d) <==> LabelsOk(Split(d, '.'))
  {
    if DomainMatches(d) {
      DomainToLabels(d);
    }
    if LabelsOk(Split(d, '.')) {
      LabelsToDomain(d);
    }
  }

  /** The forward direction: a domain the group matches splits into well-formed labels. */
  lemma {:induction false} DomainToLabels(d: string)
    requires DomainMatches(d)
    ensures LabelsOk(Split(d, '.'))
    decreases |d|, 1
  {
    var j :| 0 < j < |d| && d[j] == '.' && AllLabel(d[..j]) && (IsTopLabel(d[j + 1..]) || DomainMatches(d[j + 1..]));
    DomainCut(d, j);
  }

  /** The backward direction: well-formed labels, joined by '.', are matched by the group. */
  lemma {:induction false} LabelsToDomain(d: string)
    requires LabelsOk(Split(d, '.'))
    ensures DomainMatches(d)
    decreases |d|
  {
    var labels := Split(d, '.');
    assert '.' in d by {
      if '.' !in d {
        SplitWithoutSeparator(d, '.');
      }
    }
    var j := SplitAtFirst(d, '.');
    var rest := d[j + 1..];
    assert labels[0] == d[..j] && labels[0] != [] && AllLabel(labels[0]);
    if |labels| == 2 {
      SplitSingle(rest, '.', labels[1]);
      assert IsTopLabel(rest);
    } else {
      assert Split(rest, '.') == labels[1..];
      assert LabelsOk(Split(rest, '.'));
      LabelsToDomain(rest);
    }
    assert 0 < j < |d| && d[j] == '.' && AllLabel(d[..j]) && (IsTopLabel(rest) || DomainMatches(rest));
  }

  /** One step of the forward direction: the group cut at `j`. */
  lemma {:induction false} DomainCut(d: string, j: nat)
    requires 0 < j < |d| && d[j] == '.' && AllLabel(d[..j])
    requires IsTopLabel(d[j + 1..]) || DomainMatches(d[j + 1..])
    ensures LabelsOk(Split(d, '.'))
    decreases |d|, 0
  {
    var rest := d[j + 1..];
    AllLabelHasNoDot(d[..j]);
    assert d == d[..j] + ['.'] + rest;
    SplitAfterPiece(d[..j], '.', rest);
    if IsTopLabel(rest) {
      AllLabelHasNoDot(rest);
      SplitWithoutSeparator(rest, '.');
    } else {
      DomainToLabels(rest);
    }
  }

  /** A matching domain holds no '@'. */
  lemma DomainHasNoAt(d: string)
    requires LabelsOk(Split(d, '.'))
    ensures '@' !in d
  {
    var labels := Split(d, '.');
    if '@' in d {
      SplitThenJoin(d, '.');
      JoinKeeps(labels, '.', '@');
    }
  }

  /** A character outside every piece and different from the separator is not in their join. */
  lemma {:induction false} JoinKeeps(parts: seq<string>, sep: char, c: char)
    requires c != sep
    requires forall k :: 0 <= k < |parts| ==> c !in parts[k]
    ensures c !in Join(parts, [sep])
    decreases |parts|
  {
    if |parts| > 1 {
      JoinKeeps(parts[1..], sep, c);
    }
  }

  /** The regular-expression reading of an address agrees with the reference shape. */
  lemma PatternIffShape(s: string)
    ensures PatternMatches(s) <==> Shape(s)
  {
    if PatternMatches(s) {
      PatternToShape(s);
    }
    if Shape(s) {
      ShapeToPattern(s);
    }
  }

  lemma PatternToShape(s: string)
    requires PatternMatches(s)
    ensures Shape(s)
  {
    var i :| 0 < i < |s| && s[i] == '@' && AllLocal(s[..i]) && DomainMatches(s[i + 1..]);
    AddressCut(s, i);
  }

  /** The forward direction at the '@' the pattern chose. */
  lemma AddressCut(s: string, i: nat)
    requires 0 < i < |s| && s[i] == '@' && AllLocal(s[..i]) && DomainMatches(s[i + 1..])
    ensures Shape(s)
  {
    var rest := s[i + 1..];
    DomainIffLabels(rest);
    DomainHasNoAt(rest);
    LocalHasNoAt(s[..i]);
    assert s == s[..i] + ['@'] + rest;
    SplitAfterPiece(s[..i], '@', rest);
    SplitWithoutSeparator(rest, '@');
    assert Split(s, '@') == [s[..i], rest];
  }

  lemma ShapeToPattern(s: string)
    requires Shape(s)
    ensures PatternMatches(s)
  {
    {
      var parts := Split(s, '@');
      assert '@' in s by {
        if '@' !in s {
          SplitWithoutSeparator(s, '@');
        }
      }
      var i := SplitAtFirst(s, '@');
      SplitSingle(s[i + 1..], '@', parts[1]);
      DomainIffLabels(parts[1]);
    }
  }

  lemma LocalHasNoAt(s: string)
    requires AllLocal(s)
    ensures '@' !in s
  {
    forall k | 0 <= k < |s|
      ensures s[k] != '@'
    {
      assert IsLocalChar(s[k]);
    }
  }

  /** An accepted address holds exactly one '@', with a '.' after it and a last label of two to four characters. */
  lemma Accepted(email: string)
    requires CheckEmail(email)
    ensures var t := TrimSpace(email);
      && (exists i :: 0 <= i < |t| && t[i] == '@' && forall k :: 0 <= k < |t| && t[k] == '@' ==> k == i)
      && '.' in Split(t, '@')[1]
      && 2 <= |Last(Split(Split(t, '@')[1], '.'))| <= 4
  {
    var t := TrimSpace(email);
    var parts := Split(t, '@');
    SplitPieces(t, '@');
    assert '@' in t by {
      if '@' !in t {
        SplitWithoutSeparator(t, '@');
      }
    }
    var i := SplitAtFirst(t, '@');
    SplitSingle(t[i + 1..], '@', parts[1]);
    forall k | 0 <= k < |t| && k != i
      ensures t[k] != '@'
    {
      if k < i {
        assert t[k] == t[..i][k];
      } else {
        assert t[k] == t[i + 1..][k - i - 1];
      }
    }
    var labels := Split(parts[1], '.');
    if '.' !in parts[1] {
      SplitWithoutSeparator(parts[1], '.');
    }
  }
}
