/** The transition test of the mesoscale forcing: whether the configured forcing
    transition ends in a constant forcing, decided by the suffix of its name. */
module MesoscaleForcing {

  /** The part of the forcing state this test reads. */
  datatype Forcing = Forcing(forcing_transition: string)

  const ConstantSuffix: string := "Constant"

  /** Reference definition: `s` is some prefix followed by "Constant". */
  ghost predicate EndsInConstant(s: string) {
    exists p: string :: s == p + ConstantSuffix
  }

  /** Ending in "Constant" is the same as having at least eight characters of
      which the last eight spell "Constant". */
  lemma EndsInConstantIff(s: string)
    ensures EndsInConstant(s) <==> |s| >= 8 && s[|s| - 8..] == ConstantSuffix
  {
    if EndsInConstant(s) {
      var p :| s == p + ConstantSuffix;
      assert s[|p|..] == ConstantSuffix;
    }
    if |s| >= 8 && s[|s| - 8..] == ConstantSuffix {
      assert s == s[..|s| - 8] + ConstantSuffix;
    }
  }

  /** forcingToConstant: names shorter than the suffix are rejected outright;
      otherwise the last eight characters are compared with "Constant",
      case-sensitively. The test reads the state and returns a flag; the state is
      a value here, so it is left as it was. */
  function ForcingToConstant(f: Forcing): (r: bool)
    ensures |f.forcing_transition| < 8 ==> !r
    ensures r <==> EndsInConstant(f.forcing_transition)
  {
    var s := f.forcing_transition;
    EndsInConstantIff(s);
    if |s| < 8 then false
    else s[|s| - 8..] == ConstantSuffix
  }

  /** Any prefix followed by "Constant" is a transition to constant forcing. */
  lemma AnyPrefixIsConstant(p: string)
    ensures ForcingToConstant(Forcing(p + "Constant"))
  {
    assert p + "Constant" == p + ConstantSuffix;
  }

  /** The suffix alone counts; the comparison is case-sensitive, and a name
      shorter than the suffix never counts. */
  lemma ForcingToConstantExamples()
    ensures ForcingToConstant(Forcing("Constant"))
    ensures ForcingToConstant(Forcing("IndirectToConstant"))
    ensures !ForcingToConstant(Forcing("IndirectToconstant"))
    ensures !ForcingToConstant(Forcing("Const"))
    ensures !ForcingToConstant(Forcing("Indirect"))
  {
    AnyPrefixIsConstant("");
    AnyPrefixIsConstant("IndirectTo");
    assert "" + "Constant" == "Constant";
    assert "IndirectTo" + "Constant" == "IndirectToConstant";
    assert "IndirectToconstant"[10..] != "Constant" by {
      assert "IndirectToconstant"[10..][0] == 'c';
    }
    assert "Indirect"[0..] != "Constant" by {
      assert "Indirect"[0] == 'I';
    }
  }
}
