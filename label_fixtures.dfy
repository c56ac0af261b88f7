/**
 * The cases of tests/test_logica.py, and a few of the main loop, as lemmas
 * about the model.
 */
module LabelFixtures {
  import opened Options
  import opened Strings
  import opened Config
  import opened LabelLogic
  import opened LabelUpdater

  /** "R" becomes "1R". */
  lemma BareResidential()
    ensures NormalizeCode("R", Residential) == "1R"
  {
    assert Strip("R") == "R";
    assert Upper("R") == "R";
    assert IndexOf("R", "R") == Some(0);
  }

  /** "5C" stays "5C". */
  lemma NumberedCommercial()
    ensures NormalizeCode("5C", Commercial) == "5C"
  {
    assert IsNormalizedLabel("5C", Commercial) by {
      assert "5C"[..1] == "5";
      assert "5C"[1..] == "C";
    }
    NormalizeCodeFixesNormalized("5C", Commercial);
  }

  /** "  r " is cleaned to "R" and becomes "1R". */
  lemma DirtyResidential()
    ensures NormalizeCode("  r ", Residential) == "1R"
  {
    assert Strip("  r ") == "r" by {
      assert LeadingSpaces("  r ") == 2;
      assert "  r "[2..] == "r ";
      assert TrailingSpaces("r ") == 1;
    }
    assert Upper("r") == "R";
    BareResidential();
  }

  /** Terrain codes always get "1": "2T" becomes "1T", "TC" becomes "1TC". */
  lemma TerrainForcedToOne()
    ensures NormalizeTerrain("2T", Terrain) == "1T"
    ensures NormalizeTerrain("TC", TerrainCommercial) == "1TC"
  {
  }

  /** How the parts "R", "C", "T" and "Z" of a combination are classified. */
  lemma PartClassification()
    ensures ClassifyPart("R") == Some(Residential)
    ensures ClassifyPart("C") == Some(Commercial)
    ensures ClassifyPart("T") == None
    ensures ClassifyPart("Z") == None
  {
    assert IndexOf("R", "R") == Some(0);
    assert IndexOf("C", "C") == Some(0);
  }

  /** A one-character part is already clean. */
  lemma CleanLetter(c: char)
    requires 'A' <= c <= 'Z'
    ensures Upper(Strip([c])) == [c]
  {
    assert LeadingSpaces([c]) == 0;
    assert [c][0..] == [c];
    assert TrailingSpaces([c]) == 0;
  }

  /** "R/C" gives "1R" in place and "1C" displaced. */
  lemma SplitRC()
    ensures AnalyzeCombination("R/C") == Some([Placed("1R", 0.0), Placed("1C", 1.5)])
  {
    assert "R/C" == "R" + ['/'] + "C";
    CombinationOfHalves("R", "C");
    CleanLetter('R');
    CleanLetter('C');
    PartClassification();
    BareResidential();
    BareCommercial();
  }

  /** "C/R" keeps the input order: the assignment is by position, not by type. */
  lemma SplitCR()
    ensures AnalyzeCombination("C/R") == Some([Placed("1C", 0.0), Placed("1R", 1.5)])
  {
    assert "C/R" == "C" + ['/'] + "R";
    CombinationOfHalves("C", "R");
    CleanLetter('R');
    CleanLetter('C');
    PartClassification();
    BareResidential();
    BareCommercial();
  }

  /** "C" becomes "1C". */
  lemma BareCommercial()
    ensures NormalizeCode("C", Commercial) == "1C"
  {
    assert Strip("C") == "C";
    assert Upper("C") == "C";
    assert IndexOf("C", "C") == Some(0);
  }

  /** "2R/3C" keeps both numbers. */
  lemma SplitNumbered()
    ensures AnalyzeCombination("2R/3C") == Some([Placed("2R", 0.0), Placed("3C", 1.5)])
  {
    assert "2R/3C" == "2R" + ['/'] + "3C";
    assert IsNormalizedLabel("2R", Residential) by {
      assert "2R"[..1] == "2" && "2R"[1..] == "R";
    }
    assert IsNormalizedLabel("3C", Commercial) by {
      assert "3C"[..1] == "3" && "3C"[1..] == "C";
    }
    CombinationOfNormalized("2R", Residential, "3C", Commercial);
  }

  /** Without a "/" or with a Terrain part there is no combination. */
  lemma NotCombinations()
    ensures AnalyzeCombination("R") == None
    ensures AnalyzeCombination("T/Z") == None
  {
    assert Count("R", '/') == 0;
    CombinationNeedsOneSlash("R");
    assert "T/Z" == "T" + ['/'] + "Z";
    CombinationOfHalves("T", "Z");
    CleanLetter('T');
    PartClassification();
  }

  /** Two parts of the same type are accepted: "R/R" gives two "1R" labels. */
  lemma SplitSameType()
    ensures AnalyzeCombination("R/R") == Some([Placed("1R", 0.0), Placed("1R", 1.5)])
  {
    assert "R/R" == "R" + ['/'] + "R";
    CombinationOfHalves("R", "R");
    CleanLetter('R');
    PartClassification();
    BareResidential();
  }

  /** A digit followed by a lower-case letter is cleaned to the digit and the upper-case letter. */
  lemma CleanDigitLetter(d: char, c: char)
    requires IsDigit(d) && 'a' <= c <= 'z'
    ensures Clean([d, c]) == [d, ToUpperChar(c)]
  {
    var u := [d, ToUpperChar(c)];
    assert Upper([d, c]) == u;
    assert LeadingSpaces(u) == 0;
    assert u[0..] == u;
    assert TrailingSpaces(u) == 0;
  }

  /** In the main loop "2r" is cleaned to "2R", which is already normalized: nothing is counted. */
  lemma LowerCaseNumberedUntouched()
    ensures Process("2r") == Untouched
  {
    CleanDigitLetter('2', 'r');
    assert Clean("2r") == "2R";
    assert IsNormalizedLabel("2R", Residential) by {
      assert "2R"[..1] == "2" && "2R"[1..] == "R";
    }
    NormalizedCodeUntouched("2r", Residential);
  }

  /** In the main loop "7t" is rewritten to "1T". */
  lemma TerrainRewritten()
    ensures Process("7t") == Normalized("1T")
  {
    CleanDigitLetter('7', 't');
    assert Clean("7t") == "7T";
    assert IsNormalizedLabel("7T", Terrain) by {
      assert "7T"[..1] == "7" && "7T"[1..] == "T";
    }
    assert Prefix("7T", Terrain) == "7";
    TerrainRewrittenUnlessOne("7t", Terrain);
    assert "1" + Terrain.Tag() == "1T";
  }

  /** An empty label is accepted and left unchanged. */
  lemma EmptyLabelUntouched()
    ensures Process("") == Untouched
  {
    assert Clean("") == "" by {
      assert Upper("") == "";
      assert LeadingSpaces("") == 0;
    }
    NoTagUntouched("");
  }
}
