/** The substance registry as a value: what the Laboratory constructor
    (src/Laboratory.ts:4-19) accepts, the set it builds and the error it
    reports, stated without reference to its loop. */
module Registry {
  import opened Names

  datatype Result<+T, +E> = Ok(value: T) | Err(error: E)

  /** The errors the laboratory throws; each carries the offending name. */
  datatype LabError =
    | InvalidSubstance(name: string)
    | DuplicateSubstance(name: string)
    | UnknownSubstance(name: string)

  /** One step of construction: admit `name` into the names `known` so far. */
  function Admit(known: set<string>, name: string): Result<set<string>, LabError>
  {
    if IsBlank(name) then Err(InvalidSubstance(name))
    else if name in known then Err(DuplicateSubstance(name))
    else Ok(known + {name})
  }

  /** The outcome of constructing a laboratory from `names`, processed from the
      first name to the last; the first failing step decides the error. */
  function Validate(names: seq<string>): Result<set<string>, LabError>
    decreases |names|
  {
    if names == [] then Ok({})
    else
      match Validate(names[..|names| - 1])
      case Err(e) => Err(e)
      case Ok(known) => Admit(known, names[|names| - 1])
  }

  /** The set of names occurring in `names`. */
  function Elements(names: seq<string>): set<string>
  {
    set i | 0 <= i < |names| :: names[i]
  }

  predicate AllNamed(names: seq<string>)
  {
    forall i :: 0 <= i < |names| ==> !IsBlank(names[i])
  }

  predicate Distinct(names: seq<string>)
  {
    forall i, j :: 0 <= i < j < |names| ==> names[i] != names[j]
  }

  /** The name at index `k` is rejected: it is blank or repeats an earlier one. */
  predicate Offends(names: seq<string>, k: int)
    requires 0 <= k < |names|
  {
    IsBlank(names[k]) || names[k] in names[..k]
  }

  /** `k` is the earliest rejected index. */
  predicate FirstOffence(names: seq<string>, k: int)
  {
    0 <= k < |names| && Offends(names, k) &&
    forall j :: 0 <= j < k ==> !Offends(names, j)
  }

  /** The error reported for the rejected index `k`: the blank test comes
      before the duplicate test. */
  function Complaint(names: seq<string>, k: int): LabError
    requires 0 <= k < |names|
  {
    if IsBlank(names[k]) then InvalidSubstance(names[k]) else DuplicateSubstance(names[k])
  }

  lemma ElementsOfPrefix(names: seq<string>)
    requires names != []
    ensures Elements(names) == Elements(names[..|names| - 1]) + {names[|names| - 1]}
  {
  }

  /** Construction succeeds exactly when no index is rejected, and then the
      registry holds exactly the input names. */
  lemma {:induction false} ValidateOk(names: seq<string>)
    ensures Validate(names).Ok? <==> forall k :: 0 <= k < |names| ==> !Offends(names, k)
    ensures Validate(names).Ok? ==> Validate(names).value == Elements(names)
    decreases |names|
  {
    if names != [] {
      var n := |names| - 1;
      var p := names[..n];
      ValidateOk(p);
      ElementsOfPrefix(names);
      assert names[..n] == p;
      forall k | 0 <= k < n ensures Offends(names, k) == Offends(p, k) {
        assert names[..k] == p[..k];
      }
      assert names[n] in names[..n] <==> names[n] in Elements(p) by {
        if names[n] in names[..n] {
          var i :| 0 <= i < n && names[..n][i] == names[n];
          assert p[i] == names[n];
        }
      }
      if Validate(p).Err? {
        var k :| 0 <= k < n && Offends(p, k);
        assert Offends(names, k);
      } else if Validate(names).Ok? {
        forall k | 0 <= k < |names| ensures !Offends(names, k) {
          if k < n { assert !Offends(p, k); }
        }
      } else {
        assert Offends(names, n);
      }
    }
  }

  /** No rejected index means every name is non-blank and no name repeats. */
  lemma NoOffenceIff(names: seq<string>)
    ensures (forall k :: 0 <= k < |names| ==> !Offends(names, k)) <==> AllNamed(names) && Distinct(names)
  {
    if forall k :: 0 <= k < |names| ==> !Offends(names, k) {
      forall i | 0 <= i < |names| ensures !IsBlank(names[i]) {
        assert !Offends(names, i);
      }
      forall i, j | 0 <= i < j < |names| ensures names[i] != names[j] {
        assert !Offends(names, j);
        assert names[..j][i] == names[i];
      }
    }
    if AllNamed(names) && Distinct(names) {
      forall k | 0 <= k < |names| ensures !Offends(names, k) {
        assert !IsBlank(names[k]);
        forall i | 0 <= i < k ensures names[..k][i] != names[k] {
          assert names[..k][i] == names[i];
        }
      }
    }
  }

  lemma {:induction false} DistinctCardinality(names: seq<string>)
    requires Distinct(names)
    ensures |Elements(names)| == |names|
    decreases |names|
  {
    if names != [] {
      var p := names[..|names| - 1];
      ElementsOfPrefix(names);
      assert Distinct(p);
      DistinctCardinality(p);
    }
  }

  /** Construction succeeds iff every name is non-blank and no name occurs
      twice; on success the registry is exactly the set of input names, one
      per input entry. */
  lemma ValidateSucceedsIff(names: seq<string>)
    ensures Validate(names).Ok? <==> AllNamed(names) && Distinct(names)
    ensures Validate(names).Ok? ==>
      Validate(names).value == Elements(names) && |Validate(names).value| == |names|
  {
    ValidateOk(names);
    NoOffenceIff(names);
    if Validate(names).Ok? {
      DistinctCardinality(names);
    }
  }

  /** The reported error belongs to the earliest rejected index. */
  lemma {:induction false} ValidateFirstOffence(names: seq<string>, k: int)
    requires FirstOffence(names, k)
    ensures Validate(names) == Err(Complaint(names, k))
    decreases |names|
  {
    var n := |names| - 1;
    var p := names[..n];
    forall j | 0 <= j < n ensures Offends(names, j) == Offends(p, j) {
      assert names[..j] == p[..j];
    }
    if k < n {
      ValidateFirstOffence(p, k);
    } else {
      ValidateOk(p);
      ElementsOfPrefix(names);
      assert names[..n] == p;
      if names[n] in names[..n] {
        var i :| 0 <= i < n && names[..n][i] == names[n];
        assert p[i] == names[n];
      }
    }
  }

  /** Every failure names an earliest rejected index. */
  lemma {:induction false} ValidateErrIsFirstOffence(names: seq<string>)
    requires Validate(names).Err?
    ensures exists k :: FirstOffence(names, k) && Validate(names).error == Complaint(names, k)
    decreases |names|
  {
    var n := |names| - 1;
    var p := names[..n];
    forall j | 0 <= j < n ensures Offends(names, j) == Offends(p, j) {
      assert names[..j] == p[..j];
    }
    if Validate(p).Err? {
      ValidateErrIsFirstOffence(p);
      var k :| FirstOffence(p, k) && Validate(p).error == Complaint(p, k);
      assert FirstOffence(names, k);
    } else {
      ValidateOk(p);
      ValidateOk(names);
      assert FirstOffence(names, n);
      ValidateFirstOffence(names, n);
    }
  }

  /** Once a prefix is rejected, the rest of the input is never looked at. */
  lemma {:induction false} ValidateErrSticks(names: seq<string>, i: nat)
    requires i <= |names|
    requires Validate(names[..i]).Err?
    ensures Validate(names) == Validate(names[..i])
    decreases |names| - i
  {
    if i < |names| {
      assert names[..i + 1][..i] == names[..i];
      ValidateErrSticks(names, i + 1);
    } else {
      assert names[..i] == names;
    }
  }

  /** A blank name fails with the invalid-name error carrying that name,
      whether it is empty or whitespace only. */
  lemma BlankNameRejected(known: set<string>, name: string)
    requires IsBlank(name)
    ensures Admit(known, name) == Err(InvalidSubstance(name))
    ensures Validate([name]) == Err(InvalidSubstance(name))
  {
  }

  /** A duplicate at index 1 is reported before a blank name at index 2. */
  lemma DuplicateBeforeBlank()
    ensures Validate(["a", "a", ""]) == Err(DuplicateSubstance("a"))
  {
    var names := ["a", "a", ""];
    assert names[..1] == ["a"] && names[..2] == ["a", "a"];
    assert names[0][0] == 'a' && !IsBlank(names[0]);
    assert FirstOffence(names, 1);
    ValidateFirstOffence(names, 1);
  }

  /** A blank name at index 0 is reported although a valid name follows. */
  lemma BlankBeforeName()
    ensures Validate(["", "a"]) == Err(InvalidSubstance(""))
  {
  }

  /** The empty input is accepted and registers no name. */
  lemma EmptyInputAccepted()
    ensures Validate([]) == Ok({})
  {
  }
}
