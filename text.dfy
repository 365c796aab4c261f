/** The string operations the pipeline relies on: Python's `str.strip()`,
    truthiness of strings and `" ".join(...)`. */
module Text {

  /** Python's `str.isspace()` characters, the ones `str.strip()` removes. */
  predicate IsSpace(c: char)
  {
    || ('\t' <= c <= '\r')            // \t \n \v \f \r
    || ('\U{1C}' <= c <= ' ')         // file/group/record/unit separators and space
    || c == '\U{85}' || c == '\U{A0}' || c == '\U{1680}'
    || ('\U{2000}' <= c <= '\U{200A}')
    || c == '\U{2028}' || c == '\U{2029}' || c == '\U{202F}' || c == '\U{205F}' || c == '\U{3000}'
  }

  /** Every character of `s` is whitespace (the empty string included). */
  predicate IsBlank(s: string)
  {
    forall i :: 0 <= i < |s| ==> IsSpace(s[i])
  }

  /** `s` has no whitespace at either end, as `str.strip()` leaves it. */
  predicate IsStripped(s: string)
  {
    s == [] || (!IsSpace(s[0]) && !IsSpace(s[|s| - 1]))
  }

  /** `t` occurs in `s` as a contiguous piece. */
  predicate IsSubstring(t: string, s: string)
  {
    exists i, j :: 0 <= i <= j <= |s| && s[i..j] == t
  }

  /** Python's `str.lstrip()`: the longest suffix of `s` that does not start with whitespace. */
  function TrimStart(s: string): (r: string)
    ensures |r| <= |s| && r == s[|s| - |r|..]
    ensures r == [] || !IsSpace(r[0])
    ensures forall i :: 0 <= i < |s| - |r| ==> IsSpace(s[i])
  {
    if s != [] && IsSpace(s[0]) then TrimStart(s[1..]) else s
  }

  /** Python's `str.rstrip()`: the longest prefix of `s` that does not end with whitespace. */
  function TrimEnd(s: string): (r: string)
    ensures |r| <= |s| && r == s[..|r|]
    ensures r == [] || !IsSpace(r[|r| - 1])
    ensures forall i :: |r| <= i < |s| ==> IsSpace(s[i])
  {
    if s != [] && IsSpace(s[|s| - 1]) then TrimEnd(s[..|s| - 1]) else s
  }

  /** Python's `str.strip()`: the whitespace at both ends is removed and
      nothing else, so no whitespace is left at either end. */
  function Strip(s: string): (r: string)
    ensures IsStripped(r) && |r| <= |s|
    ensures TrimmedFrom(r, s)
  {
    TrimBothExact(s);
    TrimEnd(TrimStart(s))
  }

  /** A slice of `s` is a piece of `s`. */
  lemma SliceIsSubstring(s: string, i: nat, j: nat)
    requires i <= j <= |s|
    ensures IsSubstring(s[i..j], s)
  {
  }

  /** What `str.strip()` keeps is a piece of its input, and it keeps nothing
      exactly when the input is all whitespace. */
  lemma StripKeepsPiece(s: string)
    ensures IsSubstring(Strip(s), s)
    ensures Strip(s) == [] <==> IsBlank(s)
  {
    TrimmedPiece(Strip(s), s);
  }

  /** A string without whitespace at its ends, held in `s` between blank ends,
      is a piece of `s` that is empty exactly when `s` is blank. */
  lemma TrimmedPiece(r: string, s: string)
    requires TrimmedFrom(r, s) && IsStripped(r)
    ensures IsSubstring(r, s)
    ensures r == [] <==> IsBlank(s)
  {
    var i :| 0 <= i && i + |r| <= |s| && s[i..i + |r|] == r && IsBlank(s[..i]) && IsBlank(s[i + |r|..]);
    SliceIsSubstring(s, i, i + |r|);
    if r == [] {
      BlankJoin(s, i);
    } else {
      assert s[i] == r[0];
    }
  }

  /** `r` is `s` with whitespace taken off its two ends only: `s` is some
      whitespace, then `r`, then some whitespace. */
  predicate TrimmedFrom(r: string, s: string)
  {
    exists i :: 0 <= i && i + |r| <= |s| && s[i..i + |r|] == r && IsBlank(s[..i]) && IsBlank(s[i + |r|..])
  }

  /** Trimming both ends removes exactly the leading and the trailing
      whitespace: the input is a blank prefix, the result, then a blank suffix. */
  lemma TrimBothExact(s: string)
    ensures TrimmedFrom(TrimEnd(TrimStart(s)), s)
  {
    var a := TrimStart(s);
    var k := |s| - |a|;
    var r := TrimEnd(a);
    TrimStartExact(s);
    TrimEndExact(a);
    assert a[..|r|] == s[k..k + |r|] && a[|r|..] == s[k + |r|..];
    TrimmedAt(r, s, k);
  }

  /** `r` sits in `s` at `i` between blank ends. */
  lemma TrimmedAt(r: string, s: string, i: nat)
    requires i + |r| <= |s| && s[i..i + |r|] == r && IsBlank(s[..i]) && IsBlank(s[i + |r|..])
    ensures TrimmedFrom(r, s)
  {
  }

  /** `lstrip()` removes a blank prefix. */
  lemma TrimStartExact(s: string)
    ensures IsBlank(s[..|s| - |TrimStart(s)|])
  {
    var k := |s| - |TrimStart(s)|;
    forall t | 0 <= t < k
      ensures IsSpace(s[..k][t])
    {
      assert s[..k][t] == s[t];
    }
  }

  /** `rstrip()` removes a blank suffix. */
  lemma TrimEndExact(s: string)
    ensures IsBlank(s[|TrimEnd(s)|..])
  {
    var m := |TrimEnd(s)|;
    forall t | 0 <= t < |s| - m
      ensures IsSpace(s[m..][t])
    {
      assert s[m..][t] == s[m + t];
    }
  }


  /** The result of `str.strip()` is the only string without whitespace at
      its ends that its input holds between blank ends. */
  lemma StripUnique(s: string, r: string)
    requires TrimmedFrom(r, s) && IsStripped(r)
    ensures r == Strip(s)
  {
    var i :| 0 <= i && i + |r| <= |s| && s[i..i + |r|] == r && IsBlank(s[..i]) && IsBlank(s[i + |r|..]);
    if r == [] {
      BlankJoin(s, i);
      StripKeepsPiece(s);
    } else {
      StripUniqueAt(s, r, i);
    }
  }

  /** The non-empty case of `StripUnique`, with the position of `r` given. */
  lemma StripUniqueAt(s: string, r: string, i: nat)
    requires r != [] && IsStripped(r)
    requires i + |r| <= |s| && s[i..i + |r|] == r && IsBlank(s[..i]) && IsBlank(s[i + |r|..])
    ensures r == Strip(s)
  {
    var rest := s[i..];
    assert s[i] == r[0] && rest[|r| - 1] == r[|r| - 1];
    assert rest[|r|..] == s[i + |r|..];
    calc {
      Strip(s);
      TrimEnd(TrimStart(s));
      { TrimStartAt(s, i); }
      TrimEnd(rest);
      { TrimEndAt(rest, |r|); }
      rest[..|r|];
      { SliceOfSuffix(s, i, |r|); }
      s[i..i + |r|];
    }
  }


  /** The first `m` characters of `s` from `i` are the slice from `i` to `i + m`. */
  lemma SliceOfSuffix(s: string, i: nat, m: nat)
    requires i + m <= |s|
    ensures s[i..][..m] == s[i..i + m]
  {
  }

  /** A string blank before and from position `i` is blank. */
  lemma BlankJoin(s: string, i: nat)
    requires i <= |s| && IsBlank(s[..i]) && IsBlank(s[i..])
    ensures IsBlank(s)
  {
    forall t | 0 <= t < |s|
      ensures IsSpace(s[t])
    {
      if t < i {
        assert s[..i][t] == s[t];
      } else {
        assert s[i..][t - i] == s[t];
      }
    }
  }


  /** Trimming the start of a string that is blank before position `k` and not
      blank at `k` leaves the string from `k`. */
  lemma {:induction false} TrimStartAt(s: string, k: nat)
    requires k < |s| && IsBlank(s[..k]) && !IsSpace(s[k])
    ensures TrimStart(s) == s[k..]
    decreases k
  {
    if k > 0 {
      assert s[..k][0] == s[0];
      assert s[1..][..k - 1] == s[..k][1..];
      TrimStartAt(s[1..], k - 1);
      assert s[1..][k - 1..] == s[k..];
    }
  }

  /** Trimming the end of a string that is blank from position `m` on and not
      blank just before `m` leaves the string up to `m`. */
  lemma {:induction false} TrimEndAt(s: string, m: nat)
    requires 0 < m <= |s| && IsBlank(s[m..]) && !IsSpace(s[m - 1])
    ensures TrimEnd(s) == s[..m]
    decreases |s| - m
  {
    if m < |s| {
      var n := |s| - 1;
      assert s[m..][n - m] == s[n];
      assert s[..n][m..] == s[m..][..n - m];
      TrimEndAt(s[..n], m);
      assert s[..n][..m] == s[..m];
    }
  }

  /** Stripping twice is stripping once. */
  lemma StripIdempotent(s: string)
    ensures Strip(Strip(s)) == Strip(s)
  {
    var r := Strip(s);
    StrippedIsFixed(r);
  }

  /** A string with no whitespace at its ends is its own strip. */
  lemma StrippedIsFixed(s: string)
    requires IsStripped(s)
    ensures Strip(s) == s
  {
    assert TrimStart(s) == s;
    assert TrimEnd(s) == s;
  }

  /** Python's `" ".join(parts)`: the parts in order, one space between neighbours. */
  function JoinWithSpaces(parts: seq<string>): (r: string)
  {
    if |parts| == 0 then ""
    else if |parts| == 1 then parts[0]
    else parts[0] + " " + JoinWithSpaces(parts[1..])
  }

  /** Total length of all parts. */
  function TotalLength(parts: seq<string>): nat
  {
    if parts == [] then 0 else |parts[0]| + TotalLength(parts[1..])
  }

  /** The joined string has every character of the parts plus one separator per gap. */
  lemma {:induction false} JoinLength(parts: seq<string>)
    requires parts != []
    ensures |JoinWithSpaces(parts)| == TotalLength(parts) + |parts| - 1
  {
    if |parts| > 1 {
      JoinLength(parts[1..]);
    }
  }

  /** The joined string is empty only for no parts or a single empty part: two or
      more parts always leave at least one separator. */
  lemma {:induction false} JoinEmptyIff(parts: seq<string>)
    ensures JoinWithSpaces(parts) == "" <==> (parts == [] || parts == [""])
  {
    if |parts| > 1 {
      JoinLength(parts);
    }
  }

  /** Each part appears in the joined string. */
  lemma {:induction false} JoinContainsParts(parts: seq<string>, k: nat)
    requires k < |parts|
    ensures IsSubstring(parts[k], JoinWithSpaces(parts))
  {
    var r := JoinWithSpaces(parts);
    if |parts| == 1 {
      assert r[0..|r|] == parts[0];
    } else if k == 0 {
      assert r[0..|parts[0]|] == parts[0];
    } else {
      JoinContainsParts(parts[1..], k - 1);
      var rest := JoinWithSpaces(parts[1..]);
      var i, j :| 0 <= i <= j <= |rest| && rest[i..j] == parts[k];
      var off := |parts[0]| + 1;
      assert r == parts[0] + " " + rest;
      assert r[off + i..off + j] == rest[i..j];
    }
  }
}
