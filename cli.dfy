/**
 * `main`: parse the scriptfile, echo it when there are no arguments, otherwise pick the
 * script the first argument names, preview its body and launch it with the rest.
 * The file's text, the arguments after the program name and `SHELL` are inputs.
 */
module Cli {
  import opened Scripts
  import Scriptfile
  import opened Selection
  import opened Launching
  import opened Preview

  /** The errors `main` returns, by the step that raised them. */
  datatype Failure =
    | ParseFailed(parse: ParseError)
    | NoMatch(select: SelectError)
    | RunFailed(run: RunError)

  /**
   * What one invocation does: echo the scriptfile as usage help, fail after writing
   * `preview`, or hand `launch` to the operating system after writing `preview`.
   */
  datatype Outcome =
    | Usage(text: string)
    | Failed(preview: seq<string>, failure: Failure)
    | Spawn(preview: seq<string>, launch: Launch)

  /**
   * `main` from the scriptfile's text on. The file is parsed before the arguments are
   * looked at, so a malformed file fails even without arguments; the script is
   * previewed before `SHELL` is read, so a missing shell fails after the preview.
   */
  method Invoke(text: string, args: seq<string>, shell: Option<string>) returns (r: Outcome)
    ensures Scriptfile.Parse(text).Err? ==> r == Failed([], ParseFailed(Scriptfile.Parse(text).error))
    ensures Scriptfile.Parse(text).Ok? && args == [] ==> r == Usage(text)
    ensures Scriptfile.Parse(text).Ok? && args != [] && Select(Scriptfile.Parse(text).value, args[0], |args| - 1).Err? ==>
      r == Failed([], NoMatch(NoMatchingScript(args[0], |args| - 1)))
    ensures Scriptfile.Parse(text).Ok? && args != [] && Select(Scriptfile.Parse(text).value, args[0], |args| - 1).Ok? ==>
      var s := Scriptfile.Parse(text).value[Select(Scriptfile.Parse(text).value, args[0], |args| - 1).value];
      && s.name == args[0]
      && (shell.None? ==> r == Failed(PreviewOf(s.body), RunFailed(ShellUnset)))
      && (shell.Some? ==>
            r == Spawn(PreviewOf(s.body), Launch(shell.value, ShellArgs(s, args[1..]), Bindings(s.parameters, args[1..]))))
  {
    var parsed := Scriptfile.Parse(text);
    if parsed.Err? {
      return Failed([], ParseFailed(parsed.error));
    }
    var scripts := parsed.value;
    if args == [] {
      return Usage(text);
    }
    var name := args[0];
    var arguments := args[1..];
    var arity := |arguments|;
    var found := Select(scripts, name, arity);
    if found.Err? {
      return Failed([], NoMatch(found.error));
    }
    var script := scripts[found.value];
    var preview := Print(script.body);
    var run := Run(script, arguments, shell);
    match run
    case Err(e) => r := Failed(preview, RunFailed(e));
    case Ok(launch) => r := Spawn(preview, launch);
  }
}
