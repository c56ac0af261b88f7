/**
 * The label rules of core/logica_texto.py: normalization of Residential and
 * Commercial codes (digit prefix kept, "1" when absent), of Terrain codes
 * (prefix forced to "1"), and the resolver that splits a compound label
 * "X/Y" into two normalized labels with their offset factors.
 */
module LabelLogic {
  import opened Options
  import opened Strings
  import opened Config

  // ---------------------------------------------------------------------
  // The search for the pattern (\d*)(tag)
  // ---------------------------------------------------------------------

  /** `s[i..j]` is a run of digits immediately followed by `tag`. */
  ghost predicate PatternAt(s: string, tag: string, i: int, j: int)
  {
    0 <= i <= j && OccursAt(s, tag, j) && AllDigits(s[i..j])
  }

  /**
   * What `re.search` reports for (\d*)(tag): the leftmost start `i` at which
   * the pattern matches, and from there the longest digit group (`\d*` is
   * greedy); group 1 is `s[i..j]`.
   */
  ghost predicate IsSearchMatch(s: string, tag: string, i: int, j: int)
  {
    PatternAt(s, tag, i, j)
    && (forall i', j' :: 0 <= i' < i && i' <= j' ==> !PatternAt(s, tag, i', j'))
    && (forall j' :: j < j' ==> !PatternAt(s, tag, i, j'))
  }

  /** The start of the longest digit run that ends at index `k`. */
  function DigitRunStart(s: string, k: nat): (i: nat)
    requires k <= |s|
    ensures i <= k
  {
    if k > 0 && IsDigit(s[k - 1]) then DigitRunStart(s, k - 1) else k
  }

  /** The run from `DigitRunStart(s, k)` to `k` is all digits and cannot be extended to the left. */
  lemma {:induction false} DigitRunStartSpec(s: string, k: nat)
    requires k <= |s|
    ensures AllDigits(s[DigitRunStart(s, k)..k])
    ensures DigitRunStart(s, k) == 0 || !IsDigit(s[DigitRunStart(s, k) - 1])
  {
    if k > 0 && IsDigit(s[k - 1]) {
      DigitRunStartSpec(s, k - 1);
      var i := DigitRunStart(s, k);
      assert s[i..k] == s[i..k - 1] + [s[k - 1]];
    }
  }

  /** Group 1 of `re.search(r"(\d*)(tag)", s)`, or None when nothing matches. */
  function SearchDigitsBefore(s: string, tag: string): Option<string>
  {
    match IndexOf(s, tag)
    case None => None
    case Some(k) => Some(s[DigitRunStart(s, k)..k])
  }

  /**
   * For a tag that starts with a non-digit, the digit run before the first
   * occurrence of the tag is exactly what a leftmost, greedy regular
   * expression search reports, and there is no match when the tag is absent.
   */
  lemma SearchIsRegexSearch(s: string, tag: string)
    requires tag != [] && !IsDigit(tag[0])
    ensures SearchDigitsBefore(s, tag).None? ==>
              forall i, j :: !PatternAt(s, tag, i, j)
    ensures SearchDigitsBefore(s, tag).Some? ==>
              exists i, j :: IsSearchMatch(s, tag, i, j)
                             && SearchDigitsBefore(s, tag) == Some(s[i..j])
  {
    IndexOfSpec(s, tag);
    match IndexOf(s, tag)
    case None =>
    case Some(k) =>
      var i := DigitRunStart(s, k);
      DigitRunStartSpec(s, k);
      assert s[k] == tag[0] by { assert s[k..k + |tag|][0] == tag[0]; }
      forall i', j' | 0 <= i' < i && i' <= j'
        ensures !PatternAt(s, tag, i', j')
      {
        if j' == k {
          assert !IsDigit(s[i'..k][i - 1 - i']);
        } else if k < j' <= |s| {
          assert !IsDigit(s[i'..j'][k - i']);
        }
      }
      forall j' | k < j'
        ensures !PatternAt(s, tag, i, j')
      {
        if j' <= |s| {
          assert !IsDigit(s[i..j'][k - i]);
        }
      }
      assert IsSearchMatch(s, tag, i, k);
  }

  /** Any two results of the leftmost, greedy search are the same match. */
  lemma SearchMatchUnique(s: string, tag: string, i1: int, j1: int, i2: int, j2: int)
    requires IsSearchMatch(s, tag, i1, j1) && IsSearchMatch(s, tag, i2, j2)
    ensures i1 == i2 && j1 == j2
  {
  }

  // ---------------------------------------------------------------------
  // Normalized labels
  // ---------------------------------------------------------------------

  /** `s` is a non-empty run of digits followed by the tag of `kind`. */
  predicate IsNormalizedLabel(s: string, kind: ZoningType)
  {
    var tag := kind.Tag();
    |s| > |tag| && s[|s| - |tag|..] == tag && AllDigits(s[..|s| - |tag|])
  }

  /** The numeric prefix of a normalized label. */
  function Prefix(s: string, kind: ZoningType): string
    requires IsNormalizedLabel(s, kind)
  {
    s[..|s| - |kind.Tag()|]
  }

  /** normalizar_tipo: keep the digits before the tag, or "1" when there are none. */
  function NormalizeCode(text: string, kind: ZoningType): string
  {
    var cleaned := Upper(Strip(text));
    match SearchDigitsBefore(cleaned, kind.Tag())
    case Some(num) => (if num != "" then num else "1") + kind.Tag()
    case None => "1" + kind.Tag()
  }

  /** normalizar_terreno: Terrain labels always get the prefix "1". */
  function NormalizeTerrain(text: string, kind: ZoningType): string
  {
    "1" + kind.Tag()
  }

  /** The result of normalizar_tipo is always a non-empty run of digits followed by the tag. */
  lemma NormalizeCodeShape(text: string, kind: ZoningType)
    ensures IsNormalizedLabel(NormalizeCode(text, kind), kind)
  {
    var c := Upper(Strip(text));
    var r := NormalizeCode(text, kind);
    var n := |r| - |kind.Tag()|;
    TagShape(kind);
    match SearchDigitsBefore(c, kind.Tag())
    case Some(num) =>
      var k := IndexOf(c, kind.Tag()).value;
      DigitRunStartSpec(c, k);
      assert r[..n] == if num != "" then num else "1";
    case None =>
      assert r[..n] == "1";
  }

  /** The result of normalizar_terreno is the tag with the prefix "1", whatever the text. */
  lemma NormalizeTerrainShape(text: string, kind: ZoningType)
    ensures IsNormalizedLabel(NormalizeTerrain(text, kind), kind)
    ensures Prefix(NormalizeTerrain(text, kind), kind) == "1"
  {
    TagShape(kind);
  }

  /**
   * normalizar_tipo, stated against the regular expression search on the
   * stripped, upper-cased text: no match gives "1" + tag; a match keeps its
   * digit group, with "1" when the group is empty.
   */
  lemma NormalizeCodeMatchesSearch(text: string, kind: ZoningType)
    ensures var c, tag := Upper(Strip(text)), kind.Tag();
            (forall i, j :: !PatternAt(c, tag, i, j)) ==> NormalizeCode(text, kind) == "1" + tag
    ensures var c, tag := Upper(Strip(text)), kind.Tag();
            forall i, j :: IsSearchMatch(c, tag, i, j) ==>
              NormalizeCode(text, kind) == (if i == j then "1" else c[i..j]) + tag
  {
    var c, tag := Upper(Strip(text)), kind.Tag();
    SearchIsRegexSearch(c, tag);
    forall i, j | IsSearchMatch(c, tag, i, j)
      ensures NormalizeCode(text, kind) == (if i == j then "1" else c[i..j]) + tag
    {
      var i', j' :| IsSearchMatch(c, tag, i', j') && SearchDigitsBefore(c, tag) == Some(c[i'..j']);
      SearchMatchUnique(c, tag, i, j, i', j');
    }
  }

  /** A tag that is not in the (cleaned) text gives "1" + tag; nothing fails. */
  lemma NormalizeCodeMissingTag(text: string, kind: ZoningType)
    requires !Contains(Upper(Strip(text)), kind.Tag())
    ensures NormalizeCode(text, kind) == "1" + kind.Tag()
  {
  }

  /** A digit run ending where the text begins with digits reaches back to index 0. */
  lemma {:induction false} DigitRunStartAtFront(s: string, k: nat)
    requires k <= |s| && forall m :: 0 <= m < k ==> IsDigit(s[m])
    ensures DigitRunStart(s, k) == 0
  {
    if k > 0 {
      DigitRunStartAtFront(s, k - 1);
    }
  }

  /** A normalized label has no surrounding whitespace and no lower-case letter. */
  lemma NormalizedIsClean(s: string, kind: ZoningType)
    requires IsNormalizedLabel(s, kind)
    ensures Upper(Strip(s)) == s
  {
    var n := |s| - |kind.Tag()|;
    assert s[..n][0] == s[0];
    assert s[n..][|kind.Tag()| - 1] == s[|s| - 1];
    StripTrimmed(s);
    forall m | 0 <= m < |s| ensures ToUpperChar(s[m]) == s[m] {
      if m < n {
        assert s[..n][m] == s[m];
      } else {
        assert s[n..][m - n] == s[m];
      }
    }
  }

  /** In a normalized label the tag first occurs right after the digits. */
  lemma NormalizedTagPosition(s: string, kind: ZoningType)
    requires IsNormalizedLabel(s, kind)
    ensures IndexOf(s, kind.Tag()) == Some(|s| - |kind.Tag()|)
    ensures forall m :: 0 <= m < |s| - |kind.Tag()| ==> IsDigit(s[m])
  {
    var tag := kind.Tag();
    var n := |s| - |tag|;
    forall m | 0 <= m < n ensures IsDigit(s[m]) {
      assert s[..n][m] == s[m];
    }
    assert OccursAt(s, tag, n);
    forall m | 0 <= m < n ensures !OccursAt(s, tag, m) {
      if m + |tag| <= |s| {
        assert s[m..m + |tag|][0] == s[m];
      }
    }
    IndexOfSpec(s, tag);
  }

  /** A normalized label is its own normalization: "2R" stays "2R". */
  lemma NormalizeCodeFixesNormalized(s: string, kind: ZoningType)
    requires IsNormalizedLabel(s, kind)
    ensures NormalizeCode(s, kind) == s
  {
    var n := |s| - |kind.Tag()|;
    NormalizedIsClean(s, kind);
    NormalizedTagPosition(s, kind);
    DigitRunStartAtFront(s, n);
    assert SearchDigitsBefore(s, kind.Tag()) == Some(s[..n]);
    assert s[..n] + s[n..] == s;
  }

  /** An occurrence of a text starting with a non-digit, after a run of digits, lies in what follows. */
  lemma OccurrenceAfterDigits(d: string, tag: string, sub: string, k: int)
    requires AllDigits(d)
    requires sub != [] && !IsDigit(sub[0])
    requires OccursAt(d + tag, sub, k)
    ensures OccursAt(tag, sub, k - |d|)
  {
    var s := d + tag;
    assert s[k..k + |sub|][0] == s[k];
    assert forall j :: 0 <= j < |d| ==> s[j] == d[j];
    assert s[k..k + |sub|] == tag[k - |d|..k - |d| + |sub|];
  }

  /** An occurrence in a normalized label of a text that starts with a non-digit lies inside the tag. */
  lemma OccurrenceInTag(s: string, kind: ZoningType, sub: string, k: int)
    requires IsNormalizedLabel(s, kind)
    requires sub != [] && !IsDigit(sub[0])
    requires OccursAt(s, sub, k)
    ensures OccursAt(kind.Tag(), sub, k - (|s| - |kind.Tag()|))
  {
    var n := |s| - |kind.Tag()|;
    assert s == s[..n] + kind.Tag();
    OccurrenceAfterDigits(s[..n], kind.Tag(), sub, k);
  }

  /** An occurrence in the tag of a normalized label is an occurrence in the label. */
  lemma OccurrenceFromTag(s: string, kind: ZoningType, sub: string, k: int)
    requires IsNormalizedLabel(s, kind)
    requires OccursAt(kind.Tag(), sub, k)
    ensures OccursAt(s, sub, k + (|s| - |kind.Tag()|))
  {
    var tag := kind.Tag();
    var n := |s| - |tag|;
    assert s[n..] == tag;
    assert s[n + k..n + k + |sub|] == tag[k..k + |sub|];
  }

  /** In a normalized label, a text starting with a non-digit can only occur inside the tag. */
  lemma NormalizedContains(s: string, kind: ZoningType, sub: string)
    requires IsNormalizedLabel(s, kind)
    requires sub != [] && !IsDigit(sub[0])
    ensures Contains(s, sub) <==> Contains(kind.Tag(), sub)
  {
    ContainsIff(s, sub);
    ContainsIff(kind.Tag(), sub);
    if Contains(s, sub) {
      var k :| OccursAt(s, sub, k);
      OccurrenceInTag(s, kind, sub, k);
    }
    if Contains(kind.Tag(), sub) {
      var k :| OccursAt(kind.Tag(), sub, k);
      OccurrenceFromTag(s, kind, sub, k);
    }
  }

  /** Normalizing a second time with the same type changes nothing. */
  lemma NormalizeCodeIdempotent(text: string, kind: ZoningType)
    ensures NormalizeCode(NormalizeCode(text, kind), kind) == NormalizeCode(text, kind)
  {
    NormalizeCodeShape(text, kind);
    NormalizeCodeFixesNormalized(NormalizeCode(text, kind), kind);
  }

  /** Surrounding whitespace and letter case do not affect the result. */
  lemma NormalizeCodeIgnoresCleaning(text: string, kind: ZoningType)
    ensures NormalizeCode(Upper(Strip(text)), kind) == NormalizeCode(text, kind)
  {
    var c := Upper(Strip(text));
    calc {
      Upper(Strip(c));
      { StripUpperCommute(Strip(text)); }
      Upper(Upper(Strip(Strip(text))));
      { StripIdempotent(text); }
      Upper(Upper(Strip(text)));
      { UpperIdempotent(Strip(text)); }
      c;
    }
  }

  /**
   * The asymmetry between the two rules: the same digit prefix is kept by
   * normalizar_tipo and replaced by "1" by normalizar_terreno.
   */
  lemma PrefixKeptOrForced(digits: string, kind: ZoningType)
    requires digits != [] && AllDigits(digits)
    ensures NormalizeCode(digits + kind.Tag(), kind) == digits + kind.Tag()
    ensures NormalizeTerrain(digits + kind.Tag(), kind) == "1" + kind.Tag()
  {
    var s := digits + kind.Tag();
    assert s[..|s| - |kind.Tag()|] == digits;
    assert s[|s| - |kind.Tag()|..] == kind.Tag();
    NormalizeCodeFixesNormalized(s, kind);
  }

  // ---------------------------------------------------------------------
  // Compound labels "X/Y"
  // ---------------------------------------------------------------------

  /** One label produced by a split, with its offset factor. */
  datatype Placed = Placed(text: string, factor: real)

  /** The factor of the displaced half, written out in the resolver itself. */
  const SplitFactor: real := 1.5

  /** The resolver's factor agrees with the configured displacement factor. */
  lemma SplitFactorIsConfigured()
    ensures SplitFactor == DisplacementFactor && SplitFactor > 0.0
  {
  }

  /**
   * The zoning type of one part of a compound label: Residential when it has
   * an "R" and no "C", else Commercial when it has a "C" and no "TC", else
   * none. Terrain is never accepted here.
   */
  function ClassifyPart(p: string): Option<ZoningType>
  {
    if Contains(p, "R") && !Contains(p, "C") then Some(Residential)
    else if Contains(p, "C") && !Contains(p, "TC") then Some(Commercial)
    else None
  }

  /**
   * Only Residential and Commercial parts are classified: Residential exactly
   * with "R" and no "C", Commercial exactly with "C" and no "TC". A part mentioning
   * Terrain-Commercial ("TC") is always rejected, and so is one with neither
   * "R" nor "C".
   */
  lemma ClassifyPartOnlyResidentialOrCommercial(p: string)
    ensures ClassifyPart(p).Some? ==>
              ClassifyPart(p).value == Residential || ClassifyPart(p).value == Commercial
    ensures Contains(p, "TC") ==> ClassifyPart(p).None?
    ensures !Contains(p, "R") && !Contains(p, "C") ==> ClassifyPart(p).None?
    ensures ClassifyPart(p) == Some(Residential) <==> Contains(p, "R") && !Contains(p, "C")
    ensures ClassifyPart(p) == Some(Commercial) <==> Contains(p, "C") && !Contains(p, "TC")
  {
    if Contains(p, "TC") {
      ContainsTC(p);
    }
  }

  /** A normalized Residential or Commercial label, as a part of a combination, is classified by its tag. */
  lemma ClassifyNormalized(s: string, kind: ZoningType)
    requires kind == Residential || kind == Commercial
    requires IsNormalizedLabel(s, kind)
    ensures ClassifyPart(s) == Some(kind)
  {
    NormalizedContains(s, kind, "R");
    NormalizedContains(s, kind, "C");
    NormalizedContains(s, kind, "TC");
  }

  /** The entry one classified part contributes to the result, none when unclassified. */
  function PartResult(p: string, factor: real): seq<Placed>
  {
    match ClassifyPart(p)
    case Some(kind) => [Placed(NormalizeCode(p, kind), factor)]
    case None => []
  }

  /** analizar_combinacion: the two normalized halves of "X/Y", or None. */
  function AnalyzeCombination(text: string): (r: Option<seq<Placed>>)
    ensures r.Some? ==> |r.value| == 2
    ensures r.Some? ==> r.value[0].factor == 0.0 && r.value[1].factor == DisplacementFactor
  {
    var parts := SplitOn(text, '/');
    if |parts| != 2 then None
    else ResolveParts(Upper(Strip(parts[0])), Upper(Strip(parts[1])))
  }

  /** Collects the entries of both cleaned parts; anything but two entries is a failure. */
  function ResolveParts(p1: string, p2: string): Option<seq<Placed>>
  {
    var result := PartResult(p1, 0.0) + PartResult(p2, SplitFactor);
    if |result| == 2 then Some(result) else None
  }

  /** Both parts must be classified; a single entry is never returned. */
  lemma ResolvePartsBoth(p1: string, p2: string)
    ensures ResolveParts(p1, p2).Some? <==> ClassifyPart(p1).Some? && ClassifyPart(p2).Some?
    ensures ResolveParts(p1, p2).Some? ==>
              ResolveParts(p1, p2).value
              == [Placed(NormalizeCode(p1, ClassifyPart(p1).value), 0.0),
                  Placed(NormalizeCode(p2, ClassifyPart(p2).value), SplitFactor)]
  {
  }

  /** The result of splitting "a/b", where `a` and `b` contain no "/". */
  function CombinationOf(a: string, b: string): Option<seq<Placed>>
  {
    var p1, p2 := Upper(Strip(a)), Upper(Strip(b));
    if ClassifyPart(p1).Some? && ClassifyPart(p2).Some? then
      Some([Placed(NormalizeCode(p1, ClassifyPart(p1).value), 0.0),
            Placed(NormalizeCode(p2, ClassifyPart(p2).value), DisplacementFactor)])
    else None
  }

  /** Anything but exactly one "/" is not a combination. */
  lemma CombinationNeedsOneSlash(text: string)
    requires Count(text, '/') != 1
    ensures AnalyzeCombination(text).None?
  {
    SplitCount(text, '/');
  }

  /**
   * With exactly one "/", the result is the two halves in input order: the
   * left one at factor 0.0, the right one at the displacement factor, each
   * normalized with its own type; None when either half is unclassified.
   */
  lemma CombinationOfHalves(a: string, b: string)
    requires '/' !in a && '/' !in b
    ensures AnalyzeCombination(a + ['/'] + b) == CombinationOf(a, b)
  {
    SplitOnce(a, b, '/');
    ResolvePartsBoth(Upper(Strip(a)), Upper(Strip(b)));
  }

  /** A text with exactly one "/" is "a/b" with "/" in neither half, and its result is as above. */
  lemma OneSlashIsHalves(text: string)
    requires Count(text, '/') == 1
    ensures exists a, b :: '/' !in a && '/' !in b && text == a + ['/'] + b
                           && AnalyzeCombination(text) == CombinationOf(a, b)
  {
    var parts := SplitOn(text, '/');
    SplitCount(text, '/');
    SplitJoin(text, '/');
    SplitPiecesFree(text, '/');
    var a, b := parts[0], parts[1];
    assert parts[1..] == [b];
    assert text == a + ['/'] + b;
    CombinationOfHalves(a, b);
  }

  /** A normalized label holds only digits and upper-case letters; in particular no "/". */
  lemma NormalizedHasNoSlash(s: string, kind: ZoningType)
    requires IsNormalizedLabel(s, kind)
    ensures '/' !in s
  {
    var n := |s| - |kind.Tag()|;
    forall m | 0 <= m < |s| ensures s[m] != '/' {
      if m < n {
        assert s[..n][m] == s[m];
      } else {
        assert s[n..][m - n] == s[m];
      }
    }
  }

  /** Two already normalized Residential/Commercial halves come out unchanged, in order. */
  lemma CombinationOfNormalized(a: string, ka: ZoningType, b: string, kb: ZoningType)
    requires ka == Residential || ka == Commercial
    requires kb == Residential || kb == Commercial
    requires IsNormalizedLabel(a, ka) && IsNormalizedLabel(b, kb)
    ensures AnalyzeCombination(a + ['/'] + b) == Some([Placed(a, 0.0), Placed(b, DisplacementFactor)])
  {
    NormalizedHasNoSlash(a, ka);
    NormalizedHasNoSlash(b, kb);
    CombinationOfHalves(a, b);
    NormalizedIsClean(a, ka);
    NormalizedIsClean(b, kb);
    ClassifyNormalized(a, ka);
    ClassifyNormalized(b, kb);
    NormalizeCodeFixesNormalized(a, ka);
    NormalizeCodeFixesNormalized(b, kb);
  }
}
