/**
 * `parseNumeric` (src/utils/number.ts): trim, reject blank text, read a
 * lone comma as a decimal comma and commas next to a dot as thousands
 * separators, then convert and keep only finite results. The final
 * `Number(...)` conversion is a parameter.
 */
module NumberParsing {
  import opened Wrappers
  import opened Numbers
  import opened Seqs

  // ---------------------------------------------------------------- trim

  /** The white space and line terminators `String.prototype.trim` removes. */
  const Spaces: set<char> := {
    '\t', '\n', '\U{000B}', '\U{000C}', '\r', ' ', '\U{00A0}', '\U{1680}',
    '\U{2000}', '\U{2001}', '\U{2002}', '\U{2003}', '\U{2004}', '\U{2005}',
    '\U{2006}', '\U{2007}', '\U{2008}', '\U{2009}', '\U{200A}',
    '\U{2028}', '\U{2029}', '\U{202F}', '\U{205F}', '\U{3000}', '\U{FEFF}'}

  predicate IsSpace(c: char) { c in Spaces }

  predicate AllSpace(s: string) { forall k {:trigger IsSpace(s[k])} :: 0 <= k < |s| ==> IsSpace(s[k]) }

  /** The first position at or after `i` that does not hold a space, or `|s|`. */
  function SkipSpaces(s: string, i: nat): (n: nat)
    requires i <= |s|
    ensures i <= n <= |s|
    ensures forall k {:trigger IsSpace(s[k])} :: i <= k < n ==> IsSpace(s[k])
    ensures n < |s| ==> !IsSpace(s[n])
    decreases |s| - i
  {
    if i < |s| && IsSpace(s[i]) then SkipSpaces(s, i + 1) else i
  }

  /** The end of the text below `j` once the spaces just before `j` are dropped. */
  function BackSpaces(s: string, j: nat): (n: nat)
    requires j <= |s|
    ensures n <= j
    ensures forall k {:trigger IsSpace(s[k])} :: n <= k < j ==> IsSpace(s[k])
    ensures n > 0 ==> !IsSpace(s[n - 1])
    decreases j
  {
    if j > 0 && IsSpace(s[j - 1]) then BackSpaces(s, j - 1) else j
  }

  /** Leading white space removed. */
  function TrimStart(s: string): string { s[SkipSpaces(s, 0)..] }

  /** Trailing white space removed. */
  function TrimEnd(s: string): string { s[..BackSpaces(s, |s|)] }

  /** `String.prototype.trim`: no white space is left at either end. */
  function Trim(s: string): (r: string)
    ensures |r| <= |s|
    ensures |r| > 0 ==> !IsSpace(r[0]) && !IsSpace(r[|r| - 1])
  {
    TrimEnd(TrimStart(s))
  }

  /** Bounds `i..j` of `s` with only spaces outside and no space at either end inside. */
  predicate TrimmedAt(s: string, i: int, j: int) {
    && 0 <= i <= j <= |s|
    && (forall k {:trigger IsSpace(s[k])} :: 0 <= k < i ==> IsSpace(s[k]))
    && (forall k {:trigger IsSpace(s[k])} :: j <= k < |s| ==> IsSpace(s[k]))
    && (i < j ==> !IsSpace(s[i]) && !IsSpace(s[j - 1]))
  }

  /**
   * The trimmed text is the slice between the first and the last non-space
   * character, and it is empty exactly for all-space text.
   */
  lemma {:induction false} TrimBounds(s: string) returns (i: nat, j: nat)
    ensures TrimmedAt(s, i, j) && Trim(s) == s[i..j]
    ensures i == j <==> AllSpace(s)
  {
    var a := SkipSpaces(s, 0);
    var u := s[a..];
    var b := BackSpaces(u, |u|);
    i, j := a, a + b;
    assert Trim(s) == u[..b] == s[i..j];
    forall k | j <= k < |s|
      ensures IsSpace(s[k])
    {
      assert s[k] == u[k - a];
    }
    if b > 0 {
      assert s[j - 1] == u[b - 1];
      assert s[i] == u[0];
    }
    if a < |s| {
      assert u[0] == s[a];
      assert b > 0;
    }
  }

  /** Bounds as above determine the trimmed text. */
  lemma {:induction false} TrimCharacterised(s: string, i: int, j: int)
    requires TrimmedAt(s, i, j)
    ensures Trim(s) == s[i..j]
  {
    var i', j' := TrimBounds(s);
    if i < j {
      assert i' <= i && j <= j';
      assert i <= i' && j' <= j;
    } else {
      assert AllSpace(s);
    }
  }

  /** White space around the text never changes what `trim` gives. */
  lemma {:induction false} TrimPadding(pre: string, s: string, post: string)
    requires AllSpace(pre) && AllSpace(post)
    ensures Trim(pre + s + post) == Trim(s)
  {
    var i, j := TrimBounds(s);
    PaddedBounds(pre, s, post, i, j);
    MiddleSlice(pre, s, post, i, j);
    SameSlice(pre + s + post, s, |pre| + i, |pre| + j, i, j);
  }

  lemma {:induction false} SameSlice(t: string, s: string, a: int, b: int, i: int, j: int)
    requires TrimmedAt(t, a, b) && 0 <= i <= j <= |s|
    requires t[a..b] == s[i..j] && Trim(s) == s[i..j]
    ensures Trim(t) == Trim(s)
  {
    TrimCharacterised(t, a, b);
  }

  lemma {:induction false} PaddedBounds(pre: string, s: string, post: string, i: int, j: int)
    requires AllSpace(pre) && AllSpace(post) && TrimmedAt(s, i, j)
    ensures TrimmedAt(pre + s + post, |pre| + i, |pre| + j)
  {
    var t := pre + s + post;
    var p := |pre|;
    forall k | 0 <= k < p + i
      ensures IsSpace(t[k])
    {
      if k >= p {
        assert t[k] == s[k - p];
      }
    }
    forall k | p + j <= k < |t|
      ensures IsSpace(t[k])
    {
      if k < p + |s| {
        assert t[k] == s[k - p];
      } else {
        assert t[k] == post[k - p - |s|];
      }
    }
    if i < j {
      assert t[p + i] == s[i] && t[p + j - 1] == s[j - 1];
    }
  }

  lemma {:induction false} MiddleSlice(pre: string, s: string, post: string, i: int, j: int)
    requires 0 <= i <= j <= |s|
    ensures (pre + s + post)[|pre| + i..|pre| + j] == s[i..j]
  {
    var t := pre + s + post;
    forall k | 0 <= k < j - i
      ensures t[|pre| + i..|pre| + j][k] == s[i..j][k]
    {
      assert t[|pre| + i + k] == s[i + k];
    }
  }

  /** Trimming trimmed text changes nothing. */
  lemma {:induction false} TrimIdempotent(s: string)
    ensures Trim(Trim(s)) == Trim(s)
  {
    var i, j := TrimBounds(s);
    var t := Trim(s);
    if |t| > 0 {
      assert t[0] == s[i] && t[|t| - 1] == s[j - 1];
    }
    TrimCharacterised(t, 0, |t|);
    assert t[0..|t|] == t;
  }

  // ---------------------------------------------------------------- comma and dot

  /** The position of the first `c` in `s`. */
  function FirstIndex(s: string, c: char): (i: nat)
    requires c in s
    ensures i < |s| && s[i] == c && forall k :: 0 <= k < i ==> s[k] != c
  {
    if s[0] == c then 0 else 1 + FirstIndex(s[1..], c)
  }

  /** `s.replace(from, to)` with a one-character string pattern: only the first occurrence. */
  function ReplaceFirst(s: string, from: char, to: char): (r: string)
    ensures from in s ==> r == s[FirstIndex(s, from) := to]
    ensures from !in s ==> r == s
  {
    if |s| == 0 then []
    else if s[0] == from then [to] + s[1..]
    else [s[0]] + ReplaceFirst(s[1..], from, to)
  }

  function IsNot(c: char): char -> bool { (ch: char) => ch != c }

  /** `s.replace(/c/g, '')` */
  function RemoveAll(s: string, c: char): (r: string)
    ensures c !in r
  {
    Filter(s, IsNot(c))
  }

  /** Removing every `c` keeps exactly the other characters, in order. */
  lemma {:induction false} RemoveAllMembers(s: string, c: char)
    ensures forall ch :: ch in RemoveAll(s, c) <==> ch in s && ch != c
    ensures RemoveAll(s, c) == Filter(s, IsNot(c))
  {
    FilterMembers(s, IsNot(c));
  }

  /**
   * The text handed to `Number`: decimal comma, thousands commas, or
   * unchanged. A comma survives only after the first comma of a text with no
   * dot, and the result has a dot exactly when the text had a comma or a dot.
   */
  function Normalized(t: string): (r: string)
    ensures |r| <= |t|
    ensures ',' !in t ==> r == t
    ensures ',' in r ==> '.' !in t
    ensures '.' in r <==> ',' in t || '.' in t
  {
    if ',' in t && '.' !in t then
      var r := ReplaceFirst(t, ',', '.');
      assert r[FirstIndex(t, ',')] == '.';
      r
    else if ',' in t && '.' in t then RemoveAllMembers(t, ','); RemoveAll(t, ',')
    else t
  }

  /** Comma, no dot: the first comma becomes the decimal point; later commas stay. */
  lemma {:induction false} DecimalComma(t: string)
    requires ',' in t && '.' !in t
    ensures var r, i := Normalized(t), FirstIndex(t, ',');
      && |r| == |t| && r[i] == '.'
      && (forall k :: 0 <= k < |t| && k != i ==> r[k] == t[k])
  {
  }

  /** Comma and dot: every comma goes and every other character stays, in order. */
  lemma {:induction false} ThousandsCommas(t: string)
    requires ',' in t && '.' in t
    ensures var r := Normalized(t);
      && ',' !in r && '.' in r
      && (forall ch :: ch in r <==> ch in t && ch != ',')
      && r == Filter(t, IsNot(','))
  {
    RemoveAllMembers(t, ',');
  }

  /** Without a comma the text is passed on unchanged. */
  lemma {:induction false} NoCommaUnchanged(t: string)
    requires ',' !in t
    ensures Normalized(t) == t
  {
  }

  // ---------------------------------------------------------------- parseNumeric

  /**
   * `parseNumeric(input)`; `toNumber` is JavaScript's `Number(...)`. The
   * result is absent for absent or blank input and for a non-finite number.
   */
  function ParseNumeric(input: Option<string>, toNumber: string -> Num): (r: Option<real>)
    ensures input.None? ==> r.None?
    ensures input.Some? && AllSpace(input.value) ==> r.None?
    ensures input.Some? && !AllSpace(input.value) ==>
      var n := toNumber(Normalized(Trim(input.value)));
      (r.Some? <==> n.Fin?) && (r.Some? ==> r.value == n.r)
  {
    if input.None? then None
    else
      var trimmed := Trim(input.value);
      if trimmed == "" then None
      else
        var n := toNumber(Normalized(trimmed));
        if n.Fin? then Some(n.r) else None
  }

  /** White space around the input never changes the result. */
  lemma {:induction false} SurroundingSpaceIgnored(pre: string, s: string, post: string, toNumber: string -> Num)
    requires AllSpace(pre) && AllSpace(post)
    ensures ParseNumeric(Some(pre + s + post), toNumber) == ParseNumeric(Some(s), toNumber)
  {
    TrimPadding(pre, s, post);
  }

  /** Text that neither starts nor ends with a space is its own trim. */
  lemma {:induction false} TrimOfTrimmed(t: string)
    requires |t| > 0 && !IsSpace(t[0]) && !IsSpace(t[|t| - 1])
    ensures Trim(t) == t
  {
    TrimCharacterised(t, 0, |t|);
    assert t[0..|t|] == t;
  }

  /** `"1,2,3"` is read as `"1.2,3"`: only the first comma becomes the point. */
  lemma {:induction false} FirstCommaOnlyExample()
    ensures Normalized(Trim("1,2,3")) == "1.2,3"
  {
    var t := "1,2,3";
    TrimOfTrimmed(t);
    assert t[1] == ',';
    assert '.' !in t;
    assert FirstIndex(t, ',') == 1 by {
      assert t[1..][0] == ',';
    }
    assert t[1 := '.'] == "1.2,3";
  }
}
