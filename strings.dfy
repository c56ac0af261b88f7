/**
 * The few Python string operations the label rules rely on, restricted to
 * ASCII: `str.strip()`, `str.upper()`, the `in` substring test and
 * `str.split(sep)` with a one-character separator.
 */
module Strings {
  import opened Options

  predicate IsDigit(c: char)
  {
    '0' <= c <= '9'
  }

  predicate AllDigits(s: string)
  {
    forall i :: 0 <= i < |s| ==> IsDigit(s[i])
  }

  /** The ASCII characters for which Python's `str.isspace()` holds. */
  predicate IsSpace(c: char)
  {
    c == ' ' || '\t' <= c <= '\r' || '\U{1C}' <= c <= '\U{1F}'
  }

  function ToUpperChar(c: char): char
  {
    if 'a' <= c <= 'z' then (c as int - 32) as char else c
  }

  /** `s.upper()` on ASCII text. */
  function Upper(s: string): string
  {
    seq(|s|, i requires 0 <= i < |s| => ToUpperChar(s[i]))
  }

  /** The number of whitespace characters at the front of `s`. */
  function LeadingSpaces(s: string): (n: nat)
    ensures n <= |s|
  {
    if |s| > 0 && IsSpace(s[0]) then 1 + LeadingSpaces(s[1..]) else 0
  }

  /** The leading run is all whitespace and stops at the first other character. */
  lemma {:induction false} LeadingSpacesSpec(s: string)
    ensures forall i :: 0 <= i < LeadingSpaces(s) ==> IsSpace(s[i])
    ensures LeadingSpaces(s) == |s| || !IsSpace(s[LeadingSpaces(s)])
  {
    if |s| > 0 && IsSpace(s[0]) {
      LeadingSpacesSpec(s[1..]);
    }
  }

  /** The number of whitespace characters at the back of `s`. */
  function TrailingSpaces(s: string): (n: nat)
    ensures n <= |s|
  {
    if |s| > 0 && IsSpace(s[|s| - 1]) then 1 + TrailingSpaces(s[..|s| - 1]) else 0
  }

  /** The trailing run is all whitespace and stops at the last other character. */
  lemma {:induction false} TrailingSpacesSpec(s: string)
    ensures forall i :: |s| - TrailingSpaces(s) <= i < |s| ==> IsSpace(s[i])
    ensures TrailingSpaces(s) == |s| || !IsSpace(s[|s| - 1 - TrailingSpaces(s)])
  {
    if |s| > 0 && IsSpace(s[|s| - 1]) {
      TrailingSpacesSpec(s[..|s| - 1]);
    }
  }

  /** `s.strip()`: `s` without its surrounding whitespace. */
  function Strip(s: string): string
  {
    var a := LeadingSpaces(s);
    s[a..|s| - TrailingSpaces(s[a..])]
  }

  /** `strip()` removes exactly the whitespace at both ends and nothing else. */
  lemma StripSpec(s: string)
    ensures var r := Strip(s); r == [] || (!IsSpace(r[0]) && !IsSpace(r[|r| - 1]))
    ensures exists a, b :: 0 <= a <= b <= |s| && Strip(s) == s[a..b]
                           && (forall i :: 0 <= i < a ==> IsSpace(s[i]))
                           && (forall i :: b <= i < |s| ==> IsSpace(s[i]))
  {
    var a := LeadingSpaces(s);
    var b := |s| - TrailingSpaces(s[a..]);
    LeadingSpacesSpec(s);
    TrailingSpacesSpec(s[a..]);
    assert s[a..][..b - a] == s[a..b];
    assert Strip(s) == s[a..b];
  }

  /** `sub` occurs in `s` at index `k`. */
  predicate OccursAt(s: string, sub: string, k: int)
  {
    0 <= k && k + |sub| <= |s| && s[k..k + |sub|] == sub
  }

  /** The first index at or after `from` where `sub` occurs in `s`. */
  function IndexFrom(s: string, sub: string, from: nat): (r: Option<nat>)
    requires from <= |s|
    ensures r.Some? ==> from <= r.value && OccursAt(s, sub, r.value)
    decreases |s| - from
  {
    if OccursAt(s, sub, from) then Some(from)
    else if from + |sub| >= |s| then None
    else IndexFrom(s, sub, from + 1)
  }

  /** The search finds the first occurrence at or after `from`, and None only when there is none. */
  lemma {:induction false} IndexFromSpec(s: string, sub: string, from: nat)
    requires from <= |s|
    ensures var r := IndexFrom(s, sub, from);
            r.Some? ==> from <= r.value && OccursAt(s, sub, r.value)
                        && forall k :: from <= k < r.value ==> !OccursAt(s, sub, k)
    ensures IndexFrom(s, sub, from).None? ==> forall k :: from <= k ==> !OccursAt(s, sub, k)
    decreases |s| - from
  {
    if !OccursAt(s, sub, from) && from + |sub| < |s| {
      IndexFromSpec(s, sub, from + 1);
    }
  }

  /** The first occurrence of `sub` in `s`. */
  lemma IndexOfSpec(s: string, sub: string)
    ensures IndexOf(s, sub).Some? ==>
              OccursAt(s, sub, IndexOf(s, sub).value)
              && forall k :: 0 <= k < IndexOf(s, sub).value ==> !OccursAt(s, sub, k)
    ensures IndexOf(s, sub).None? ==> forall k :: !OccursAt(s, sub, k)
  {
    IndexFromSpec(s, sub, 0);
  }

  /** The first index where `sub` occurs in `s` (Python's `s.find(sub)`). */
  function IndexOf(s: string, sub: string): Option<nat>
  {
    IndexFrom(s, sub, 0)
  }

  /** Python's `sub in s`. */
  predicate Contains(s: string, sub: string)
  {
    IndexOf(s, sub).Some?
  }

  /** `sub in s` holds exactly when `sub` occurs somewhere in `s`. */
  lemma ContainsIff(s: string, sub: string)
    ensures Contains(s, sub) <==> exists k :: OccursAt(s, sub, k)
  {
    IndexOfSpec(s, sub);
  }

  /** The number of occurrences of `c` in `s`. */
  function Count(s: string, c: char): nat
  {
    if |s| == 0 then 0 else (if s[0] == c then 1 else 0) + Count(s[1..], c)
  }

  /** `s.split(sep)`: the pieces of `s` between the occurrences of `sep`. */
  function SplitOn(s: string, sep: char): (parts: seq<string>)
    ensures |parts| >= 1
  {
    if |s| == 0 then [""]
    else
      var rest := SplitOn(s[1..], sep);
      if s[0] == sep then [""] + rest
      else [[s[0]] + rest[0]] + rest[1..]
  }

  /** `sep.join(parts)`. */
  function JoinWith(parts: seq<string>, sep: char): string
    requires |parts| >= 1
  {
    if |parts| == 1 then parts[0] else parts[0] + [sep] + JoinWith(parts[1..], sep)
  }

  /** Splitting yields one more piece than there are separators. */
  lemma {:induction false} SplitCount(s: string, sep: char)
    ensures |SplitOn(s, sep)| == Count(s, sep) + 1
  {
    if |s| > 0 {
      SplitCount(s[1..], sep);
    }
  }

  /** No piece of a split contains the separator. */
  lemma {:induction false} SplitPiecesFree(s: string, sep: char)
    ensures forall i :: 0 <= i < |SplitOn(s, sep)| ==> sep !in SplitOn(s, sep)[i]
  {
    if |s| > 0 {
      SplitPiecesFree(s[1..], sep);
    }
  }

  /** Joining the pieces of a split with the separator gives back the text. */
  lemma {:induction false} SplitJoin(s: string, sep: char)
    ensures JoinWith(SplitOn(s, sep), sep) == s
  {
    if |s| > 0 {
      var rest := SplitOn(s[1..], sep);
      SplitJoin(s[1..], sep);
      if s[0] == sep {
        assert SplitOn(s, sep)[1..] == rest;
      } else {
        JoinHead([s[0]], rest, sep);
        assert s == [s[0]] + s[1..];
      }
    }
  }

  /** Prefixing the first piece prefixes the joined text. */
  lemma JoinHead(x: string, parts: seq<string>, sep: char)
    requires |parts| >= 1
    ensures JoinWith([x + parts[0]] + parts[1..], sep) == x + JoinWith(parts, sep)
  {
    var ps := [x + parts[0]] + parts[1..];
    if |parts| > 1 {
      assert ps[1..] == parts[1..];
    }
  }

  /** Text with no separator splits into itself alone. */
  lemma {:induction false} SplitNone(s: string, sep: char)
    requires sep !in s
    ensures SplitOn(s, sep) == [s]
  {
    if |s| > 0 {
      SplitNone(s[1..], sep);
      assert s == [s[0]] + s[1..];
    }
  }

  /** A separator-free prefix and the first separator become the first piece. */
  lemma {:induction false} SplitAtFirst(a: string, b: string, sep: char)
    requires sep !in a
    ensures SplitOn(a + [sep] + b, sep) == [a] + SplitOn(b, sep)
  {
    if |a| == 0 {
      assert a + [sep] + b == [sep] + b;
      assert ([sep] + b)[1..] == b;
    } else {
      SplitAtFirst(a[1..], b, sep);
      var s := a + [sep] + b;
      assert s[1..] == a[1..] + [sep] + b;
      assert a == [a[0]] + a[1..];
    }
  }

  /** Exactly one separator: the split is the text before it and the text after it. */
  lemma SplitOnce(a: string, b: string, sep: char)
    requires sep !in a && sep !in b
    ensures SplitOn(a + [sep] + b, sep) == [a, b]
  {
    SplitAtFirst(a, b, sep);
    SplitNone(b, sep);
  }

  /** Upper-casing never creates or removes whitespace. */
  lemma UpperKeepsSpace(c: char)
    ensures IsSpace(ToUpperChar(c)) == IsSpace(c)
  {
  }

  /** Upper-casing distributes over slices. */
  lemma UpperSlice(s: string, a: nat, b: nat)
    requires a <= b <= |s|
    ensures Upper(s)[a..b] == Upper(s[a..b])
  {
  }

  lemma {:induction false} LeadingSpacesUpper(s: string)
    ensures LeadingSpaces(Upper(s)) == LeadingSpaces(s)
  {
    if |s| > 0 {
      UpperKeepsSpace(s[0]);
      assert Upper(s)[1..] == Upper(s[1..]);
      LeadingSpacesUpper(s[1..]);
    }
  }

  lemma {:induction false} TrailingSpacesUpper(s: string)
    ensures TrailingSpaces(Upper(s)) == TrailingSpaces(s)
  {
    if |s| > 0 {
      UpperKeepsSpace(s[|s| - 1]);
      assert Upper(s)[..|s| - 1] == Upper(s[..|s| - 1]);
      TrailingSpacesUpper(s[..|s| - 1]);
    }
  }

  /** `s.upper().strip()` and `s.strip().upper()` agree on ASCII text. */
  lemma StripUpperCommute(s: string)
    ensures Strip(Upper(s)) == Upper(Strip(s))
  {
    var a := LeadingSpaces(s);
    LeadingSpacesUpper(s);
    assert Upper(s)[a..] == Upper(s[a..]);
    TrailingSpacesUpper(s[a..]);
    var b := |s| - TrailingSpaces(s[a..]);
    UpperSlice(s, a, b);
  }

  /** Text with no surrounding whitespace is left alone by `strip()`. */
  lemma StripTrimmed(s: string)
    requires s == [] || (!IsSpace(s[0]) && !IsSpace(s[|s| - 1]))
    ensures Strip(s) == s
  {
    assert s[0..] == s;
    assert LeadingSpaces(s) == 0;
    assert TrailingSpaces(s) == 0;
  }

  /** Stripping twice is stripping once. */
  lemma StripIdempotent(s: string)
    ensures Strip(Strip(s)) == Strip(s)
  {
    StripSpec(s);
    StripTrimmed(Strip(s));
  }

  /** Upper-casing twice is upper-casing once. */
  lemma UpperIdempotent(s: string)
    ensures Upper(Upper(s)) == Upper(s)
  {
  }

  /** Text containing "TC" contains both "T" and "C". */
  lemma ContainsTC(p: string)
    requires Contains(p, "TC")
    ensures Contains(p, "T") && Contains(p, "C")
  {
    IndexOfSpec(p, "TC");
    var k := IndexOf(p, "TC").value;
    assert p[k..k + 2][0] == p[k] && p[k..k + 2][1] == p[k + 1];
    assert OccursAt(p, "T", k) by {
      assert p[k..k + 1] == [p[k]];
    }
    assert OccursAt(p, "C", k + 1) by {
      assert p[k + 1..k + 2] == [p[k + 1]];
    }
    ContainsIff(p, "T");
    ContainsIff(p, "C");
  }
}
