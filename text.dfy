/** The Python string built-ins the pipeline relies on: `str.isspace`,
    `str.strip`, `str.join`, decimal rendering of an `int` in an f-string, and
    `str.format` with the single `{error}` field the error templates use. */
module Text {

  /** The characters for which Python's `str.isspace()` holds: those of
      bidirectional class WS, B or S, or of general category Zs. */
  const Whitespace: set<char> := {
    '\U{9}', '\U{A}', '\U{B}', '\U{C}', '\U{D}',
    '\U{1C}', '\U{1D}', '\U{1E}', '\U{1F}', '\U{20}',
    '\U{85}', '\U{A0}', '\U{1680}',
    '\U{2000}', '\U{2001}', '\U{2002}', '\U{2003}', '\U{2004}', '\U{2005}',
    '\U{2006}', '\U{2007}', '\U{2008}', '\U{2009}', '\U{200A}',
    '\U{2028}', '\U{2029}', '\U{202F}', '\U{205F}', '\U{3000}'
  }

  /** `c.isspace()` */
  predicate IsSpace(c: char) {
    c in Whitespace
  }

  ghost predicate AllSpace(s: string) {
    forall k :: 0 <= k < |s| ==> IsSpace(s[k])
  }

  /** `s.lstrip()`: the longest suffix of `s` that does not start with
      whitespace; everything removed is whitespace. */
  function TrimStart(s: string): (r: string)
    ensures |r| <= |s| && r == s[|s| - |r|..]
    ensures r != [] ==> !IsSpace(r[0])
    ensures AllSpace(s[..|s| - |r|])
  {
    if s != [] && IsSpace(s[0]) then
      var r := TrimStart(s[1..]);
      DropLeadingSpace(s, r);
      r
    else s
  }

  /** One step of `TrimStart`: cutting a leading whitespace character off
      before trimming the rest cuts only whitespace. */
  lemma DropLeadingSpace(s: string, r: string)
    requires s != [] && IsSpace(s[0])
    requires |r| <= |s| - 1 && r == s[1..][|s| - 1 - |r|..] && AllSpace(s[1..][..|s| - 1 - |r|])
    ensures r == s[|s| - |r|..] && AllSpace(s[..|s| - |r|])
  {
    assert s[1..][|s| - 1 - |r|..] == s[|s| - |r|..];
    var cut, rest := s[..|s| - |r|], s[1..][..|s| - 1 - |r|];
    forall k | 0 <= k < |cut| ensures IsSpace(cut[k]) {
      if k > 0 { assert cut[k] == rest[k - 1]; }
    }
  }

  /** `s.rstrip()`: the longest prefix of `s` that does not end with
      whitespace; everything removed is whitespace. */
  function TrimEnd(s: string): (r: string)
    ensures |r| <= |s| && r == s[..|r|]
    ensures r != [] ==> !IsSpace(r[|r| - 1])
    ensures AllSpace(s[|r|..])
  {
    if s != [] && IsSpace(s[|s| - 1]) then
      var r := TrimEnd(s[..|s| - 1]);
      DropTrailingSpace(s, r);
      r
    else s
  }

  /** One step of `TrimEnd`: cutting a trailing whitespace character off
      before trimming the rest cuts only whitespace. */
  lemma DropTrailingSpace(s: string, r: string)
    requires s != [] && IsSpace(s[|s| - 1])
    requires |r| <= |s| - 1 && r == s[..|s| - 1][..|r|] && AllSpace(s[..|s| - 1][|r|..])
    ensures r == s[..|r|] && AllSpace(s[|r|..])
  {
    assert s[..|s| - 1][..|r|] == s[..|r|];
    var cut, rest := s[|r|..], s[..|s| - 1][|r|..];
    forall k | 0 <= k < |cut| ensures IsSpace(cut[k]) {
      if k < |rest| { assert cut[k] == rest[k]; }
    }
  }

  /** `s.strip()` */
  function Strip(s: string): string {
    TrimEnd(TrimStart(s))
  }

  /** `s[i..j]` is `s` with whitespace-only margins cut off and no
      whitespace left at either end of what remains. */
  ghost predicate IsStrippedAt(s: string, i: nat, j: nat) {
    i <= j <= |s| && AllSpace(s[..i]) && AllSpace(s[j..]) &&
    (i < j ==> !IsSpace(s[i]) && !IsSpace(s[j - 1]))
  }

  /** Where the text Strip keeps begins in `s`. */
  function StripOffset(s: string): nat {
    |s| - |TrimStart(s)|
  }

  /** Strip removes whitespace margins and nothing else, and what it keeps
      neither starts nor ends with whitespace. */
  lemma StripIsStrippedSlice(s: string)
    ensures IsStrippedAt(s, StripOffset(s), StripOffset(s) + |Strip(s)|)
    ensures Strip(s) == s[StripOffset(s)..StripOffset(s) + |Strip(s)|]
  {
    var t := TrimStart(s);
    var r := TrimEnd(t);
    assert r == Strip(s) && |s| - |t| == StripOffset(s);
    TrimmedIsStrippedSlice(s, t, r);
  }

  /** The margins cut by the two trims, stated without the trims. */
  lemma TrimmedIsStrippedSlice(s: string, t: string, r: string)
    requires |t| <= |s| && t == s[|s| - |t|..] && AllSpace(s[..|s| - |t|])
    requires t != [] ==> !IsSpace(t[0])
    requires |r| <= |t| && r == t[..|r|] && AllSpace(t[|r|..])
    requires r != [] ==> !IsSpace(r[|r| - 1])
    ensures IsStrippedAt(s, |s| - |t|, |s| - |t| + |r|)
    ensures r == s[|s| - |t|..|s| - |t| + |r|]
  {
    var i := |s| - |t|;
    assert s[i..i + |r|] == r by {
      assert s[i..][..|r|] == s[i..i + |r|];
    }
    assert AllSpace(s[i + |r|..]) by {
      assert s[i..][|r|..] == s[i + |r|..];
    }
    if r != [] {
      assert s[i] == r[0] && s[i + |r| - 1] == r[|r| - 1] by {
        assert s[i..i + |r|][0] == s[i];
        assert s[i..i + |r|][|r| - 1] == s[i + |r| - 1];
      }
    }
  }

  lemma SpaceInPrefix(s: string, i: nat, k: nat)
    requires k < i <= |s| && AllSpace(s[..i])
    ensures IsSpace(s[k])
  {
    assert s[..i][k] == s[k];
  }

  lemma SpaceInSuffix(s: string, j: nat, k: nat)
    requires j <= k < |s| && AllSpace(s[j..])
    ensures IsSpace(s[k])
  {
    assert s[j..][k - j] == s[k];
  }

  /** Two stripped slices of the same string are the same slice. */
  lemma SameStrippedSlice(s: string, i: nat, j: nat, i': nat, j': nat)
    requires IsStrippedAt(s, i, j) && IsStrippedAt(s, i', j')
    ensures s[i..j] == s[i'..j']
  {
    if i < j && i' < j' {
      if i < i' { SpaceInPrefix(s, i', i); assert false; }
      if i' < i { SpaceInPrefix(s, i, i'); assert false; }
      if j < j' { assert false; }
      if j' < j { assert false; }
    } else if i < j {
      if i < i' { SpaceInPrefix(s, i', i); assert false; }
      SpaceInSuffix(s, j', i);
      assert false;
    } else if i' < j' {
      if i' < i { SpaceInPrefix(s, i, i'); assert false; }
      SpaceInSuffix(s, j, i');
      assert false;
    }
  }

  /** Any slice with whitespace-only margins and non-whitespace ends is the
      one Strip returns: the contract above pins Strip down completely. */
  lemma StrippedSliceIsUnique(s: string, i: nat, j: nat)
    requires IsStrippedAt(s, i, j)
    ensures Strip(s) == s[i..j]
  {
    StripIsStrippedSlice(s);
    SameStrippedSlice(s, i, j, StripOffset(s), StripOffset(s) + |Strip(s)|);
  }

  /** `not s.strip()` holds exactly for the strings made only of whitespace. */
  lemma BlankIffAllSpace(s: string)
    ensures Strip(s) == [] <==> AllSpace(s)
  {
    if AllSpace(s) {
      assert IsStrippedAt(s, 0, 0);
      StrippedSliceIsUnique(s, 0, 0);
    }
  }

  /** A non-empty sequence is its prefix followed by its last element. */
  lemma SplitLast<T>(s: seq<T>)
    requires s != []
    ensures s[..|s| - 1] + [s[|s| - 1]] == s
  {
  }

  /** Taking every element of a sequence gives the sequence. */
  lemma TakeAll<T>(s: seq<T>)
    ensures s[..|s|] == s
  {
  }

  /** Taking one more element appends that element. */
  lemma TakeStep<T>(s: seq<T>, i: nat)
    requires i < |s|
    ensures s[..i + 1] == s[..i] + [s[i]]
  {
  }

  /** `sep.join(parts)` */
  function Join(sep: string, parts: seq<string>): string {
    if |parts| == 0 then []
    else if |parts| == 1 then parts[0]
    else Join(sep, parts[..|parts| - 1]) + sep + parts[|parts| - 1]
  }

  /** Concatenation is associative. */
  lemma AppendAssoc<T>(a: seq<T>, b: seq<T>, c: seq<T>)
    ensures a + (b + c) == (a + b) + c
  {
  }

  /** Joining two non-empty lists puts one separator between the two joins. */
  lemma {:induction false} JoinConcat(sep: string, xs: seq<string>, ys: seq<string>)
    requires xs != [] && ys != []
    ensures Join(sep, xs + ys) == Join(sep, xs) + sep + Join(sep, ys)
  {
    var zs := xs + ys;
    if |ys| == 1 {
      assert zs[..|zs| - 1] == xs;
    } else {
      var ys' := ys[..|ys| - 1];
      assert zs[..|zs| - 1] == xs + ys';
      JoinConcat(sep, xs, ys');
    }
  }

  /** Part `k` of a join sits between the join of the parts before it and
      the join of the parts after it, one separator on each side. */
  lemma JoinAt(sep: string, parts: seq<string>, k: nat)
    requires k < |parts|
    ensures Join(sep, parts) ==
      (if k == 0 then "" else Join(sep, parts[..k]) + sep)
      + parts[k]
      + (if k == |parts| - 1 then "" else sep + Join(sep, parts[k + 1..]))
  {
    var before, after := parts[..k], parts[k + 1..];
    var part := parts[k];
    assert Join(sep, [part]) == part;
    if k > 0 && k < |parts| - 1 {
      var head := Join(sep, before) + sep + part;
      assert Join(sep, parts) == head + sep + Join(sep, after) by {
        assert parts == (before + [part]) + after;
        JoinConcat(sep, before + [part], after);
        JoinConcat(sep, before, [part]);
      }
      AppendAssoc(head, sep, Join(sep, after));
    } else if k > 0 {
      assert parts == before + [part];
      JoinConcat(sep, before, [part]);
    } else if k < |parts| - 1 {
      assert parts == [part] + after;
      JoinConcat(sep, [part], after);
    }
  }

  predicate IsDigit(c: char) {
    '0' <= c <= '9'
  }

  function DigitChar(d: nat): char
    requires d < 10
  {
    "0123456789"[d]
  }

  /** The value of a string of decimal digits. */
  function DecimalValue(s: string): nat
    requires forall k :: 0 <= k < |s| ==> IsDigit(s[k])
  {
    if s == [] then 0
    else
      assert IsDigit(s[|s| - 1]);
      DecimalValue(s[..|s| - 1]) * 10 + (s[|s| - 1] as int - '0' as int)
  }

  /** `f"{n}"` for a non-negative int: decimal digits, no leading zero, and
      reading the digits back gives `n`. */
  function NatToString(n: nat): (r: string)
    ensures r != [] && forall k :: 0 <= k < |r| ==> IsDigit(r[k])
    ensures |r| > 1 ==> r[0] != '0'
    ensures DecimalValue(r) == n
  {
    if n < 10 then [DigitChar(n)]
    else
      var prefix := NatToString(n / 10);
      assert (prefix + [DigitChar(n % 10)])[..|prefix|] == prefix;
      prefix + [DigitChar(n % 10)]
  }

  /** Distinct numbers are rendered differently. */
  lemma NatToStringInjective(m: nat, n: nat)
    requires NatToString(m) == NatToString(n)
    ensures m == n
  {
  }

  /** A `str.format` template as Python parses it: literal text and
      replacement fields. The only field the templates here use is
      `{error}`. */
  datatype FormatPiece = Literal(text: string) | ErrorField

  /** `template.format(error=value)`: the literal text in order, with
      `value` in place of every `{error}` field. */
  function FormatError(template: seq<FormatPiece>, value: string): string {
    if template == [] then ""
    else
      var piece := template[|template| - 1];
      FormatError(template[..|template| - 1], value) + (if piece.Literal? then piece.text else value)
  }
}
