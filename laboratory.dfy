/** The `Laboratory` class of src/Laboratory.ts: a registry of known substance
    names, filled once by the constructor and queried by `GetQuantity`. */
module Laboratory {
  import opened Names
  import opened Registry

  class Laboratory {
    /** The private `Set<string>` of accepted substance names. */
    var knownSubstances: set<string>

    /** No blank name is ever registered. */
    ghost predicate Valid()
      reads this
    {
      forall n :: n in knownSubstances ==> !IsBlank(n)
    }

    /** The object before its first name is added: `new Set()`. */
    constructor Empty()
      ensures knownSubstances == {} && Valid()
    {
      knownSubstances := {};
    }

    /** The TypeScript constructor, which throws on a bad input list: the
        names are checked in order, the empty name and then any name that
        trims to nothing are invalid, a repeat is a duplicate, and every
        accepted name joins the set. The outcome is that of `Validate`. */
    static method Create(substances: seq<string>) returns (r: Result<Laboratory, LabError>)
      ensures Validate(substances).Err? ==> r == Err(Validate(substances).error)
      ensures Validate(substances).Ok? ==>
        r.Ok? && fresh(r.value) && r.value.Valid() &&
        r.value.knownSubstances == Validate(substances).value
    {
      var lab := new Laboratory.Empty();
      var i := 0;
      while i < |substances|
        invariant 0 <= i <= |substances|
        invariant Validate(substances[..i]) == Ok(lab.knownSubstances)
        invariant lab.Valid()
      {
        var substance := substances[i];
        assert substances[..i + 1][..i] == substances[..i];
        if substance == "" {
          ValidateErrSticks(substances, i + 1);
          return Err(InvalidSubstance(""));
        }
        if Trim(substance) == "" {
          ValidateErrSticks(substances, i + 1);
          return Err(InvalidSubstance(substance));
        }
        if substance in lab.knownSubstances {
          ValidateErrSticks(substances, i + 1);
          return Err(DuplicateSubstance(substance));
        }
        lab.knownSubstances := lab.knownSubstances + {substance};
        i := i + 1;
      }
      assert substances[..i] == substances;
      return Ok(lab);
    }

    /** `getQuantity`: zero for a registered name, the unknown-substance error
        for any other. It only reads the registry. */
    function GetQuantity(substance: string): (r: Result<real, LabError>)
      reads this
      ensures r.Ok? <==> substance in knownSubstances
      ensures r.Ok? ==> r.value == 0.0
      ensures r.Err? ==> r.error == UnknownSubstance(substance)
    {
      if substance !in knownSubstances then Err(UnknownSubstance(substance)) else Ok(0.0)
    }
  }

  /** A blank query, the empty name included, is never a registered name, so
      it takes the unknown-substance path. */
  lemma BlankQueryIsUnknown(lab: Laboratory, substance: string)
    requires lab.Valid()
    requires IsBlank(substance)
    ensures lab.GetQuantity(substance) == Err(UnknownSubstance(substance))
  {
  }

  /** Every name of a successful construction reads as zero, every other name
      is unknown. */
  lemma QueriesAfterConstruction(names: seq<string>, lab: Laboratory, substance: string)
    requires Validate(names) == Ok(lab.knownSubstances)
    ensures substance in names ==> lab.GetQuantity(substance) == Ok(0.0)
    ensures substance !in names ==> lab.GetQuantity(substance) == Err(UnknownSubstance(substance))
  {
    ValidateSucceedsIff(names);
    if substance in names {
      var i :| 0 <= i < |names| && names[i] == substance;
    }
  }

  /** The source's own test scenarios, replayed against the model. */
  method InitializationScenarios()
  {
    var r := Laboratory.Create(["water"]);
    assert ["water"][..0] == [];
    assert "water"[0] == 'w' && !IsBlank("water");
    assert r.Ok?;
    var lab := r.value;
    assert lab.GetQuantity("water") == Ok(0.0);
    assert lab.GetQuantity("salt") == Err(UnknownSubstance("salt"));
    // Blank queries are unknown substances in this snapshot, not invalid ones.
    assert IsBlank("") && IsBlank("  ");
    assert lab.GetQuantity("") == Err(UnknownSubstance(""));
    assert lab.GetQuantity("  ") == Err(UnknownSubstance("  "));

    var dup := Laboratory.Create(["water", "water"]);
    assert ["water", "water"][..1] == ["water"];
    assert dup == Err(DuplicateSubstance("water"));

    var empty := Laboratory.Create([""]);
    assert empty == Err(InvalidSubstance(""));

    var spaces := Laboratory.Create(["   "]);
    assert IsBlank("   ");
    assert spaces == Err(InvalidSubstance("   "));

    // The empty list is accepted, and its laboratory knows no substance.
    var none := Laboratory.Create([]);
    assert none.Ok? && none.value.knownSubstances == {};
    assert none.value.GetQuantity("water") == Err(UnknownSubstance("water"));
  }
}
