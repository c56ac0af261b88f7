/**
 * The per-label loop of main.py: each text is upper-cased and stripped,
 * routed to the combination resolver when it contains "/", otherwise
 * normalized by the single-label precedence TC > T > R > C, and rewritten
 * only when the result differs. The loop keeps the counters of processed,
 * split and modified labels. Drawing edits are returned as a list instead of
 * being applied through the drawing session.
 */
module LabelUpdater {
  import opened Options
  import opened Strings
  import opened Config
  import opened LabelLogic

  /** What happens to one text of the drawing. */
  datatype Outcome =
    | Separated(parts: seq<Placed>)  // replaced by two new labels, then deleted
    | Normalized(text: string)       // its text is overwritten
    | Untouched

  /** The counters of the final report. */
  datatype Stats = Stats(processed: nat, separated: nat, modified: nat)

  /** A change to the drawing, by position of the text in the input. */
  datatype Edit =
    | SetText(index: nat, text: string)            // obj.TextString = text
    | ReplaceWith(index: nat, parts: seq<Placed>)  // one new text per part, original deleted

  /** `texto_original.upper().strip()`. */
  function Clean(raw: string): string
  {
    Strip(Upper(raw))
  }

  /**
   * The single-label branch: None when the text has none of the tags,
   * otherwise the text normalized by the first tag present in the order
   * TC, T, R, C.
   */
  function NormalizeSingle(t: string): Option<string>
  {
    if !(Contains(t, "R") || Contains(t, "C") || Contains(t, "T") || Contains(t, "TC")) then None
    else if Contains(t, "TC") then Some(NormalizeTerrain(t, TerrainCommercial))
    else if Contains(t, "T") then Some(NormalizeTerrain(t, Terrain))
    else if Contains(t, "R") then Some(NormalizeCode(t, Residential))
    else Some(NormalizeCode(t, Commercial))
  }

  /** The decision taken for one text of the drawing. */
  function Process(raw: string): Outcome
  {
    var t := Clean(raw);
    if Contains(t, "/") then
      match AnalyzeCombination(t)
      case Some(parts) => Separated(parts)
      case None => Untouched
    else
      match NormalizeSingle(t)
      case Some(n) => if n != t then Normalized(n) else Untouched
      case None => Untouched
  }

  /** The outcome of every text, in order. */
  function Outcomes(texts: seq<string>): (os: seq<Outcome>)
    ensures |os| == |texts|
  {
    if texts == [] then [] else Outcomes(texts[..|texts| - 1]) + [Process(texts[|texts| - 1])]
  }

  /** The counters after the outcomes `os`. */
  function Tally(os: seq<Outcome>): Stats
  {
    if os == [] then Stats(0, 0, 0) else Counted(Tally(os[..|os| - 1]), os[|os| - 1])
  }

  /** The counters after one more outcome. */
  function Counted(s: Stats, o: Outcome): Stats
  {
    match o
    case Separated(_) => s.(processed := s.processed + 1, separated := s.separated + 1)
    case Normalized(_) => s.(processed := s.processed + 1, modified := s.modified + 1)
    case Untouched => s.(processed := s.processed + 1)
  }

  /** The edits the outcome of the text at `index` makes to the drawing. */
  function EditsFor(index: nat, o: Outcome): seq<Edit>
  {
    match o
    case Separated(parts) => [ReplaceWith(index, parts)]
    case Normalized(text) => [SetText(index, text)]
    case Untouched => []
  }

  /** All edits of the outcomes `os`, in order. */
  function Edits(os: seq<Outcome>): seq<Edit>
  {
    if os == [] then [] else Edits(os[..|os| - 1]) + EditsFor(|os| - 1, os[|os| - 1])
  }

  /**
   * The bookkeeping for the text at `index` once its outcome is known: a
   * split or a rewrite is applied to the drawing unless in simulation mode,
   * and counted either way.
   */
  method Record(index: nat, o: Outcome, dryRun: bool, stats: Stats, edits: seq<Edit>)
    returns (stats': Stats, edits': seq<Edit>)
    ensures stats' == Counted(stats, o)
    ensures edits' == if dryRun then edits else edits + EditsFor(index, o)
  {
    var procesados, separados, modificados := stats.processed, stats.separated, stats.modified;
    edits' := edits;
    procesados := procesados + 1;
    match o {
      case Separated(parts) =>
        if !dryRun {
          edits' := edits' + [ReplaceWith(index, parts)];
        }
        separados := separados + 1;
      case Normalized(text) =>
        if !dryRun {
          edits' := edits' + [SetText(index, text)];
        }
        modificados := modificados + 1;
      case Untouched =>
    }
    stats' := Stats(procesados, separados, modificados);
  }

  /**
   * The loop of main(): every text is processed once, in order; the
   * counters follow the outcomes; the drawing is edited only outside
   * simulation mode, and simulation mode changes no counter.
   */
  method Run(texts: seq<string>, dryRun: bool := DryRun)
    returns (outcomes: seq<Outcome>, edits: seq<Edit>, stats: Stats)
    ensures outcomes == Outcomes(texts)
    ensures stats == Tally(outcomes)
    ensures edits == if dryRun then [] else Edits(outcomes)
  {
    outcomes, edits, stats := [], [], Stats(0, 0, 0);
    ghost var all := Outcomes(texts);
    for i := 0 to |texts|
      invariant outcomes == all[..i]
      invariant stats == Tally(outcomes)
      invariant edits == if dryRun then [] else Edits(outcomes)
    {
      var o := Process(texts[i]);
      OutcomesAt(texts, i);
      stats, edits := Record(i, o, dryRun, stats, edits);
      PrefixStep(all, i);
      outcomes := outcomes + [o];
    }
    PrefixStep(all, |texts|);
  }

  /** Growing a prefix by one element; the whole sequence is its longest prefix. */
  lemma PrefixStep<T>(s: seq<T>, i: nat)
    requires i <= |s|
    ensures i < |s| ==> s[..i + 1] == s[..i] + [s[i]] && (s[..i] + [s[i]])[..i] == s[..i]
    ensures s[..|s|] == s
  {
  }

  // ---------------------------------------------------------------------
  // Properties of the dispatch
  // ---------------------------------------------------------------------

  /** Each text's outcome is decided from that text alone. */
  lemma {:induction false} OutcomesAt(texts: seq<string>, i: nat)
    requires i < |texts|
    ensures Outcomes(texts)[i] == Process(texts[i])
  {
    if i < |texts| - 1 {
      OutcomesAt(texts[..|texts| - 1], i);
    }
  }

  /** A text with "/" goes only to the combination resolver; it is never rewritten in place. */
  lemma SlashGoesToResolver(raw: string)
    requires Contains(Clean(raw), "/")
    ensures !Process(raw).Normalized?
    ensures Process(raw).Separated? <==> AnalyzeCombination(Clean(raw)).Some?
    ensures Process(raw).Separated? ==> Process(raw).parts == AnalyzeCombination(Clean(raw)).value
  {
  }

  /** A text is rewritten only when its normalization differs from the cleaned text. */
  lemma RewriteOnlyWhenChanged(raw: string)
    requires Process(raw).Normalized?
    ensures !Contains(Clean(raw), "/")
    ensures NormalizeSingle(Clean(raw)) == Some(Process(raw).text)
    ensures Process(raw).text != Clean(raw)
  {
  }

  /** A text with no "/" and none of the tags is left alone. */
  lemma NoTagUntouched(raw: string)
    requires !Contains(Clean(raw), "/")
    requires !Contains(Clean(raw), "R") && !Contains(Clean(raw), "C") && !Contains(Clean(raw), "T")
    ensures Process(raw) == Untouched
  {
    if Contains(Clean(raw), "TC") {
      ContainsTC(Clean(raw));
    }
  }

  /** The single-label precedence as an ordered table: the most specific tag first. */
  const Precedence: seq<ZoningType> := [TerrainCommercial, Terrain, Residential, Commercial]

  /** The first type of `table` whose tag occurs in `t`. */
  function FirstTagIn(t: string, table: seq<ZoningType>): Option<ZoningType>
  {
    if table == [] then None
    else if Contains(t, table[0].Tag()) then Some(table[0])
    else FirstTagIn(t, table[1..])
  }

  /** The rule for a type: Terrain codes get "1", the others keep their digits. */
  function RuleFor(kind: ZoningType, t: string): string
  {
    if kind.IsTerrain() then NormalizeTerrain(t, kind) else NormalizeCode(t, kind)
  }

  /** The if/elif chain of the single-label branch applies the precedence table. */
  lemma SingleLabelFollowsTable(t: string)
    ensures NormalizeSingle(t) == match FirstTagIn(t, Precedence)
                                  case None => None
                                  case Some(kind) => Some(RuleFor(kind, t))
  {
    assert FirstTagIn(t, [Commercial]) == if Contains(t, "C") then Some(Commercial) else None by {
      assert [Commercial][1..] == [];
    }
    assert FirstTagIn(t, [Residential, Commercial])
           == if Contains(t, "R") then Some(Residential) else FirstTagIn(t, [Commercial]) by {
      assert [Residential, Commercial][1..] == [Commercial];
    }
    assert FirstTagIn(t, [Terrain, Residential, Commercial])
           == if Contains(t, "T") then Some(Terrain) else FirstTagIn(t, [Residential, Commercial]) by {
      assert [Terrain, Residential, Commercial][1..] == [Residential, Commercial];
    }
    assert FirstTagIn(t, Precedence)
           == if Contains(t, "TC") then Some(TerrainCommercial)
              else FirstTagIn(t, [Terrain, Residential, Commercial]) by {
      assert Precedence[1..] == [Terrain, Residential, Commercial];
    }
    if Contains(t, "TC") {
      ContainsTC(t);
    }
  }

  /** A label with "TC" is always Terrain-Commercial, never bare Terrain or Commercial. */
  lemma TCNeverMisread(t: string)
    requires Contains(t, "TC")
    ensures NormalizeSingle(t) == Some("1TC")
  {
    assert TerrainCommercial.Tag() == "TC";
    assert "1" + "TC" == "1TC";
  }

  /**
   * A text that is already a normalized Residential or Commercial label,
   * such as "2R", is neither rewritten nor counted as modified.
   */
  lemma NormalizedCodeUntouched(raw: string, kind: ZoningType)
    requires kind == Residential || kind == Commercial
    requires IsNormalizedLabel(Clean(raw), kind)
    ensures Process(raw) == Untouched
  {
    var t := Clean(raw);
    NormalizedContains(t, kind, "/");
    NormalizedContains(t, kind, "TC");
    NormalizedContains(t, kind, "T");
    NormalizedContains(t, kind, "R");
    NormalizedContains(t, kind, "C");
    NormalizeCodeFixesNormalized(t, kind);
  }

  /** A Terrain label is rewritten exactly when its prefix is not already "1". */
  lemma TerrainRewrittenUnlessOne(raw: string, kind: ZoningType)
    requires kind.IsTerrain()
    requires IsNormalizedLabel(Clean(raw), kind)
    ensures Process(raw) == if Prefix(Clean(raw), kind) == "1" then Untouched else Normalized("1" + kind.Tag())
  {
    var t := Clean(raw);
    NormalizedTerrainSingle(t, kind);
    assert t == Prefix(t, kind) + kind.Tag();
  }

  /** A normalized Terrain label has no "/" and is normalized by its own tag. */
  lemma NormalizedTerrainSingle(t: string, kind: ZoningType)
    requires kind.IsTerrain()
    requires IsNormalizedLabel(t, kind)
    ensures !Contains(t, "/")
    ensures NormalizeSingle(t) == Some("1" + kind.Tag())
  {
    NormalizedContains(t, kind, "/");
    NormalizedContains(t, kind, "TC");
    NormalizedContains(t, kind, "T");
  }

  // ---------------------------------------------------------------------
  // Properties of the counters and the edits
  // ---------------------------------------------------------------------

  /**
   * Every text is counted as processed once, and at most one of
   * separated/modified grows per text.
   */
  lemma {:induction false} TallyBounds(os: seq<Outcome>)
    ensures Tally(os).processed == |os|
    ensures Tally(os).separated + Tally(os).modified <= Tally(os).processed
  {
    if os != [] {
      TallyBounds(os[..|os| - 1]);
    }
  }

  /** The text has a "/" and the resolver accepts it. */
  predicate IsSplitText(raw: string)
  {
    Contains(Clean(raw), "/") && AnalyzeCombination(Clean(raw)).Some?
  }

  /** A text is split exactly when it has a "/" and the resolver accepts it. */
  lemma SeparatedIff(raw: string)
    ensures Process(raw).Separated? <==> IsSplitText(raw)
  {
  }

  /** The positions of the split texts among the outcomes `os`. */
  ghost function SplitPositions(os: seq<Outcome>): set<nat>
  {
    set i: nat | i < |os| && os[i].Separated?
  }

  /** The `separated` counter is the number of split outcomes. */
  lemma {:induction false} SeparatedCountsPositions(os: seq<Outcome>)
    ensures Tally(os).separated == |SplitPositions(os)|
  {
    if os != [] {
      var n := |os| - 1;
      var init := os[..n];
      SeparatedCountsPositions(init);
      assert SplitPositions(init) == set i: nat | i < n && os[i].Separated?;
      if os[n].Separated? {
        assert SplitPositions(os) == SplitPositions(init) + {n};
      } else {
        assert SplitPositions(os) == SplitPositions(init);
      }
    }
  }

  /** Positions of split outcomes are the positions of split texts when the two lists agree. */
  lemma SplitPositionsOfTexts(os: seq<Outcome>, texts: seq<string>)
    requires |os| == |texts|
    requires forall i :: 0 <= i < |os| ==> (os[i].Separated? <==> IsSplitText(texts[i]))
    ensures SplitPositions(os) == set i: nat | i < |texts| && IsSplitText(texts[i])
  {
  }

  /** `separados` counts exactly the texts that have a "/" and that the resolver accepts. */
  lemma SeparatedCountsSplits(texts: seq<string>)
    ensures Tally(Outcomes(texts)).separated == |set i: nat | i < |texts| && IsSplitText(texts[i])|
  {
    var os := Outcomes(texts);
    SeparatedCountsPositions(os);
    forall i | 0 <= i < |os|
      ensures os[i].Separated? <==> IsSplitText(texts[i])
    {
      OutcomesAt(texts, i);
      SeparatedIff(texts[i]);
    }
    SplitPositionsOfTexts(os, texts);
  }

  /** The text has no "/" and its single-label normalization differs from the cleaned text. */
  predicate IsRewrittenText(raw: string)
  {
    var t := Clean(raw);
    !Contains(t, "/") && NormalizeSingle(t).Some? && NormalizeSingle(t).value != t
  }

  /** A text is rewritten exactly when it has no "/" and its normalization changes it. */
  lemma ModifiedIff(raw: string)
    ensures Process(raw).Normalized? <==> IsRewrittenText(raw)
  {
  }

  /** The positions of the rewritten texts among the outcomes `os`. */
  ghost function RewritePositions(os: seq<Outcome>): set<nat>
  {
    set i: nat | i < |os| && os[i].Normalized?
  }

  /** The `modified` counter is the number of rewrite outcomes. */
  lemma {:induction false} ModifiedCountsPositions(os: seq<Outcome>)
    ensures Tally(os).modified == |RewritePositions(os)|
  {
    if os != [] {
      var n := |os| - 1;
      var init := os[..n];
      ModifiedCountsPositions(init);
      assert RewritePositions(init) == set i: nat | i < n && os[i].Normalized?;
      if os[n].Normalized? {
        assert RewritePositions(os) == RewritePositions(init) + {n};
      } else {
        assert RewritePositions(os) == RewritePositions(init);
      }
    }
  }

  /** Positions of rewrite outcomes are the positions of rewritten texts when the two lists agree. */
  lemma RewritePositionsOfTexts(os: seq<Outcome>, texts: seq<string>)
    requires |os| == |texts|
    requires forall i :: 0 <= i < |os| ==> (os[i].Normalized? <==> IsRewrittenText(texts[i]))
    ensures RewritePositions(os) == set i: nat | i < |texts| && IsRewrittenText(texts[i])
  {
  }

  /** `modificados` counts exactly the texts without "/" whose normalization changes them. */
  lemma ModifiedCountsRewrites(texts: seq<string>)
    ensures Tally(Outcomes(texts)).modified == |set i: nat | i < |texts| && IsRewrittenText(texts[i])|
  {
    var os := Outcomes(texts);
    ModifiedCountsPositions(os);
    forall i | 0 <= i < |os|
      ensures os[i].Normalized? <==> IsRewrittenText(texts[i])
    {
      OutcomesAt(texts, i);
      ModifiedIff(texts[i]);
    }
    RewritePositionsOfTexts(os, texts);
  }

  /**
   * The drawing receives one edit per split or rewritten text, in input
   * order, each carrying that text's outcome.
   */
  lemma {:induction false} EditsFollowOutcomes(os: seq<Outcome>)
    ensures |Edits(os)| == Tally(os).separated + Tally(os).modified
    ensures forall e :: e in Edits(os) ==> e.index < |os|
    ensures forall e :: e in Edits(os) && e.SetText? ==> os[e.index] == Normalized(e.text)
    ensures forall e :: e in Edits(os) && e.ReplaceWith? ==> os[e.index] == Separated(e.parts)
    ensures forall i :: 0 <= i < |os| && !os[i].Untouched? ==> exists e :: e in Edits(os) && e.index == i
    ensures forall a, b :: 0 <= a < b < |Edits(os)| ==> Edits(os)[a].index < Edits(os)[b].index
  {
    EditsMatchOutcomes(os);
    EditsCoverChanges(os);
    EditsInOrder(os);
  }

  /** The number of edits, their range, and that each carries its text's outcome. */
  lemma {:induction false} EditsMatchOutcomes(os: seq<Outcome>)
    ensures |Edits(os)| == Tally(os).separated + Tally(os).modified
    ensures forall e :: e in Edits(os) ==> e.index < |os|
    ensures forall e :: e in Edits(os) && e.SetText? ==> os[e.index] == Normalized(e.text)
    ensures forall e :: e in Edits(os) && e.ReplaceWith? ==> os[e.index] == Separated(e.parts)
  {
    if os != [] {
      var init := os[..|os| - 1];
      EditsMatchOutcomes(init);
      forall e | e in Edits(init) ensures os[e.index] == init[e.index] {
      }
    }
  }

  /** Every split or rewritten text has an edit. */
  lemma {:induction false} EditsCoverChanges(os: seq<Outcome>)
    ensures forall i :: 0 <= i < |os| && !os[i].Untouched? ==> exists e :: e in Edits(os) && e.index == i
  {
    if os != [] {
      var n := |os| - 1;
      var init := os[..n];
      EditsCoverChanges(init);
      var last := EditsFor(n, os[n]);
      assert Edits(os) == Edits(init) + last;
      forall i | 0 <= i < |os| && !os[i].Untouched?
        ensures exists e :: e in Edits(os) && e.index == i
      {
        if i < n {
          assert os[i] == init[i];
          var e :| e in Edits(init) && e.index == i;
          assert e in Edits(os);
        } else {
          assert last[0] in Edits(os);
        }
      }
    }
  }

  /** Edits follow input order, so no text is edited twice. */
  lemma {:induction false} EditsInOrder(os: seq<Outcome>)
    ensures forall a, b :: 0 <= a < b < |Edits(os)| ==> Edits(os)[a].index < Edits(os)[b].index
  {
    if os != [] {
      var n := |os| - 1;
      var init := os[..n];
      EditsInOrder(init);
      EditsMatchOutcomes(init);
      var prev: seq<Edit>, last: seq<Edit> := Edits(init), EditsFor(n, os[n]);
      assert Edits(os) == prev + last;
      assert |last| <= 1;
      forall a, b | 0 <= a < b < |prev + last|
        ensures (prev + last)[a].index < (prev + last)[b].index
      {
        if b < |prev| {
          assert (prev + last)[a] == prev[a] && (prev + last)[b] == prev[b];
        } else {
          assert (prev + last)[a] == prev[a] && prev[a] in prev;
          assert (prev + last)[b] == last[0];
        }
      }
    }
  }
}
