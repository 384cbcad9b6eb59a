/**
 * Choosing the script an invocation names: the first script, in file order, with the
 * requested name and no more parameters than there are arguments.
 */
module Selection {
  import opened Scripts

  /** Why no script was chosen: none has the name and at most `arity` parameters. */
  datatype SelectError = NoMatchingScript(name: string, arity: nat)

  /** The test `find` applies: the name matches and the script asks for at most `arity` values. */
  predicate Fits(s: Script, name: string, arity: nat) {
    s.name == name && |s.parameters| <= arity
  }

  /**
   * `scripts.iter().find(...)`, as the index of the script found: the first script that
   * fits, or, when none does, an error carrying the name and the arity.
   */
  function Select(scripts: seq<Script>, name: string, arity: nat): (r: Result<nat, SelectError>)
    ensures r.Ok? ==> r.value < |scripts| && Fits(scripts[r.value], name, arity)
    ensures r.Ok? ==> forall j :: 0 <= j < r.value ==> !Fits(scripts[j], name, arity)
    ensures r.Err? <==> forall j :: 0 <= j < |scripts| ==> !Fits(scripts[j], name, arity)
    ensures r.Err? ==> r.error == NoMatchingScript(name, arity)
  {
    if scripts == [] then Err(NoMatchingScript(name, arity))
    else if Fits(scripts[0], name, arity) then Ok(0)
    else
      match Select(scripts[1..], name, arity)
      case Ok(k) => Ok(k + 1)
      case Err(e) => Err(e)
  }

  /**
   * Supplying more arguments never loses a match: the script chosen with more
   * arguments is the same one or an earlier one.
   */
  lemma {:induction false} SelectMoreArguments(scripts: seq<Script>, name: string, arity: nat, more: nat)
    requires arity <= more
    requires Select(scripts, name, arity).Ok?
    ensures Select(scripts, name, more).Ok?
    ensures Select(scripts, name, more).value <= Select(scripts, name, arity).value
  {
    var k := Select(scripts, name, arity).value;
    assert Fits(scripts[k], name, more);
  }

  /**
   * The rule is "at most", not "exactly": an earlier script with fewer parameters
   * shadows a later one whose parameters match the arguments one for one.
   */
  lemma {:induction false} EarlierShorterScriptWins()
    ensures Select([Script("t", [], "a"), Script("t", ["x"], "b")], "t", 1) == Ok(0)
  {
  }
}
