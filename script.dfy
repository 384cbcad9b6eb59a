/**
 * A script of the scriptfile and how one header/body pair becomes a script
 * (`Script::from`).
 */
module Scripts {
  import opened Text

  datatype Result<+T, +E> = Ok(value: T) | Err(error: E) {
    predicate IsFailure() {
      Err?
    }

    function PropagateFailure<U>(): Result<U, E>
      requires Err?
    {
      Err(error)
    }

    function Extract(): T
      requires Ok?
    {
      value
    }
  }

  datatype Option<+T> = None | Some(value: T)

  /** One named, parameterised shell command block. */
  datatype Script = Script(name: string, parameters: seq<string>, body: string)

  /**
   * Why a scriptfile yields no scripts: it does not match the grammar, or one of its
   * header lines has no word to name the script (where the program panics on
   * `words.next().unwrap()`).
   */
  datatype ParseError = Malformed | MissingName

  predicate NoTrailingWhitespace(s: string) {
    s == [] || !IsWhitespace(s[|s| - 1])
  }

  /**
   * `Script::from`: the first word of the signature names the script, the other words
   * are its parameters in order, and the body keeps everything but trailing whitespace.
   */
  function ScriptOf(signature: string, rawBody: string): (r: Result<Script, ParseError>)
    ensures r.Err? <==> Words(signature) == []
    ensures r.Err? ==> r.error == MissingName
    ensures r.Ok? ==> [r.value.name] + r.value.parameters == Words(signature)
    ensures r.Ok? ==> r.value.body <= rawBody && NoTrailingWhitespace(r.value.body)
    ensures r.Ok? ==> forall i :: |r.value.body| <= i < |rawBody| ==> IsWhitespace(rawBody[i])
  {
    var words := Words(signature);
    if words == [] then Err(MissingName)
    else Ok(Script(words[0], words[1..], TrimEnd(rawBody)))
  }
}
