/**
 * `Script::run` up to the point where the shell is spawned: the command it builds,
 * with its program, its argument vector and the environment variables it sets.
 */
module Launching {
  import opened Scripts

  /** The command handed to the operating system: `<program> <args...>` with `env` added. */
  datatype Launch = Launch(program: string, args: seq<string>, env: map<string, string>)

  /**
   * `env::var("SHELL")?` fails when the variable is unset, and also when it is set to a
   * value that is not valid Unicode; `ShellUnset` stands for both, and the `shell` input
   * is `None` in both cases.
   */
  datatype RunError = ShellUnset

  /**
   * The environment `cmd.env(parameter, argument)` builds over `zip(parameters,
   * arguments)`: one binding per parameter, a later binding of the same name replacing
   * an earlier one.
   */
  function Bindings(parameters: seq<string>, arguments: seq<string>): (env: map<string, string>)
    requires |parameters| <= |arguments|
    ensures env.Keys == set p | p in parameters
    decreases |parameters|
  {
    if parameters == [] then map[]
    else
      var n := |parameters| - 1;
      assert parameters == parameters[..n] + [parameters[n]];
      Bindings(parameters[..n], arguments)[parameters[n] := arguments[n]]
  }

  /** The script's argument vector: `-c`, the body, the name as `$0`, then the extra arguments. */
  function ShellArgs(s: Script, arguments: seq<string>): (argv: seq<string>)
    requires |s.parameters| <= |arguments|
    ensures |argv| == 3 + |arguments| - |s.parameters|
    ensures argv[..3] == ["-c", s.body, s.name]
    ensures forall k :: 3 <= k < |argv| ==> argv[k] == arguments[|s.parameters| + k - 3]
  {
    ["-c", s.body, s.name] + arguments[|s.parameters|..]
  }

  /** A parameter holds the argument at its last position in the parameter list. */
  lemma {:induction false} BindingsLast(parameters: seq<string>, arguments: seq<string>, i: nat)
    requires |parameters| <= |arguments|
    requires i < |parameters|
    requires forall j :: i < j < |parameters| ==> parameters[j] != parameters[i]
    ensures parameters[i] in Bindings(parameters, arguments)
    ensures Bindings(parameters, arguments)[parameters[i]] == arguments[i]
    decreases |parameters|
  {
    var n := |parameters| - 1;
    if i < n {
      var prefix := parameters[..n];
      assert prefix[i] == parameters[i];
      assert forall j :: i < j < |prefix| ==> prefix[j] != prefix[i] by {
        forall j | i < j < |prefix| ensures prefix[j] != prefix[i] {
          assert prefix[j] == parameters[j];
        }
      }
      BindingsLast(prefix, arguments, i);
    }
  }

  /** With distinct parameter names, parameter `i` is bound to `arguments[i]`. */
  lemma {:induction false} BindingsDistinct(parameters: seq<string>, arguments: seq<string>)
    requires |parameters| <= |arguments|
    requires forall i, j :: 0 <= i < j < |parameters| ==> parameters[i] != parameters[j]
    ensures forall i :: 0 <= i < |parameters| ==>
      parameters[i] in Bindings(parameters, arguments) && Bindings(parameters, arguments)[parameters[i]] == arguments[i]
  {
    forall i | 0 <= i < |parameters|
      ensures parameters[i] in Bindings(parameters, arguments)
      ensures Bindings(parameters, arguments)[parameters[i]] == arguments[i]
    {
      BindingsLast(parameters, arguments, i);
    }
  }

  /** The values of the parameters in the environment, in parameter order ("" when unset). */
  function BoundValues(parameters: seq<string>, env: map<string, string>): (vs: seq<string>)
    ensures |vs| == |parameters|
  {
    if parameters == [] then []
    else [if parameters[0] in env then env[parameters[0]] else ""] + BoundValues(parameters[1..], env)
  }

  lemma {:induction false} BoundValuesAt(parameters: seq<string>, env: map<string, string>, i: nat)
    requires i < |parameters| && parameters[i] in env
    ensures BoundValues(parameters, env)[i] == env[parameters[i]]
  {
    if i > 0 {
      BoundValuesAt(parameters[1..], env, i - 1);
    }
  }

  /**
   * Nothing is lost between the environment and the argument vector: with distinct
   * parameter names, the parameters' values in order followed by the extra shell
   * arguments are the arguments.
   */
  lemma {:induction false} BindingsThenExtras(s: Script, arguments: seq<string>)
    requires |s.parameters| <= |arguments|
    requires forall i, j :: 0 <= i < j < |s.parameters| ==> s.parameters[i] != s.parameters[j]
    ensures BoundValues(s.parameters, Bindings(s.parameters, arguments)) + ShellArgs(s, arguments)[3..] == arguments
  {
    var n := |s.parameters|;
    BoundValuesDistinct(s.parameters, arguments);
    ShellArgsExtras(s, arguments);
    TakeDrop(arguments, n);
  }

  lemma {:induction false} TakeDrop(xs: seq<string>, n: nat)
    requires n <= |xs|
    ensures xs[..n] + xs[n..] == xs
  {
  }

  lemma {:induction false} ShellArgsExtras(s: Script, arguments: seq<string>)
    requires |s.parameters| <= |arguments|
    ensures ShellArgs(s, arguments)[3..] == arguments[|s.parameters|..]
  {
    var head: seq<string> := ["-c", s.body, s.name];
    assert (head + arguments[|s.parameters|..])[3..] == arguments[|s.parameters|..];
  }

  lemma {:induction false} BoundValuesDistinct(parameters: seq<string>, arguments: seq<string>)
    requires |parameters| <= |arguments|
    requires forall i, j :: 0 <= i < j < |parameters| ==> parameters[i] != parameters[j]
    ensures BoundValues(parameters, Bindings(parameters, arguments)) == arguments[..|parameters|]
  {
    var env := Bindings(parameters, arguments);
    var vs := BoundValues(parameters, env);
    BindingsDistinct(parameters, arguments);
    forall i | 0 <= i < |parameters|
      ensures vs[i] == arguments[i]
    {
      BoundValuesAt(parameters, env, i);
    }
  }

  /**
   * `Script::run` until `cmd.status()`: the shell comes from `SHELL` (given here as
   * `shell`); the command gets `-c`, the body and the name, then one environment
   * variable per parameter, then the arguments left over after the parameters.
   * The caller's selection guarantees at least as many arguments as parameters.
   */
  method Run(s: Script, arguments: seq<string>, shell: Option<string>) returns (r: Result<Launch, RunError>)
    requires |s.parameters| <= |arguments|
    ensures shell.None? <==> r == Err(ShellUnset)
    ensures shell.Some? ==> r == Ok(Launch(shell.value, ShellArgs(s, arguments), Bindings(s.parameters, arguments)))
  {
    if shell.None? {
      return Err(ShellUnset);
    }
    var args := ["-c", s.body, s.name];
    var env: map<string, string> := map[];
    var i := 0;
    while i < |s.parameters|
      invariant i <= |s.parameters|
      invariant env == Bindings(s.parameters[..i], arguments)
    {
      assert s.parameters[..i + 1][..i] == s.parameters[..i];
      env := env[s.parameters[i] := arguments[i]];
      i := i + 1;
    }
    assert s.parameters[..i] == s.parameters;
    args := args + arguments[|s.parameters|..];
    return Ok(Launch(shell.value, args, env));
  }
}
