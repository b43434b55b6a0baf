/** `Executable`: one external command being assembled, its name, the
    argument elements in insertion order and an optional success-code list.
    Values are immutable here, so a copy can never share its argument list
    with the original. */
module Executables {
  import opened Wrappers
  import opened Elements
  import Normalization

  datatype Executable = Executable(
    executableName: string,
    args: seq<Element>,
    codes: Option<seq<string>>)

  /** `new Executable(name, successCodes)`. */
  function NewWithCodes(name: string, successCodes: Option<seq<string>>): (e: Executable)
    ensures e.executableName == name && e.args == []
    ensures OverrideSuccessCodes(e) <==> successCodes.Some?
    ensures SuccessCodes(e) == successCodes
  {
    Executable(name, [], successCodes)
  }

  /** `new Executable(name)`: no success-code override. */
  function New(name: string): (e: Executable)
    ensures e.executableName == name && e.args == []
    ensures !OverrideSuccessCodes(e)
  {
    NewWithCodes(name, None)
  }

  /** The copy constructor. */
  function CopyOf(e: Executable): (c: Executable)
    ensures c.executableName == e.executableName
    ensures SuccessCodes(c) == SuccessCodes(e)
    ensures Arguments(c) == Arguments(e)
  {
    Executable(e.executableName, Arguments(e), e.codes)
  }

  /** `addArgument(value)`: one argument appended at the end. */
  function AddArgument(e: Executable, value: string): (r: Executable)
    ensures r.executableName == e.executableName && r.codes == e.codes
    ensures |r.args| == |e.args| + 1
    ensures r.args[..|e.args|] == e.args
    ensures r.args[|e.args|] == Argument(value)
  {
    e.(args := e.args + [Argument(value)])
  }

  /** `addNormalizedArgument(value, whitespaceReplacement)`. */
  function AddNormalizedArgument(e: Executable, value: string, whitespaceReplacement: string): (r: Executable)
    ensures r == AddArgument(e, Normalization.Normalize(value, whitespaceReplacement))
    ensures !Normalization.WhitespacedOption(r.args[|e.args|].text)
  {
    Normalization.NormalizedIsNotWhitespaced(value, whitespaceReplacement);
    AddArgument(e, Normalization.Normalize(value, whitespaceReplacement))
  }

  function ExecutableName(e: Executable): string {
    e.executableName
  }

  /** `arguments()`: the arguments in insertion order (a read-only view). */
  function Arguments(e: Executable): seq<Element> {
    e.args
  }

  function OverrideSuccessCodes(e: Executable): bool {
    e.codes.Some?
  }

  function SuccessCodes(e: Executable): Option<seq<string>> {
    e.codes
  }

  /** A sequence of `addArgument` calls, in order. */
  function AddArguments(e: Executable, values: seq<string>): Executable
    decreases |values|
  {
    if values == [] then e else AddArguments(AddArgument(e, values[0]), values[1..])
  }

  /** Arguments added one by one come out in insertion order, after the
      arguments that were there before, and nothing else changes. */
  lemma {:induction false} AddArgumentsInOrder(e: Executable, values: seq<string>)
    ensures var r := AddArguments(e, values);
      && r.executableName == e.executableName && r.codes == e.codes
      && |r.args| == |e.args| + |values|
      && r.args[..|e.args|] == e.args
      && forall i :: 0 <= i < |values| ==> r.args[|e.args| + i] == Argument(values[i])
    decreases |values|
  {
    if values != [] {
      var e1 := AddArgument(e, values[0]);
      AddArgumentsInOrder(e1, values[1..]);
      var r := AddArguments(e, values);
      assert r == AddArguments(e1, values[1..]);
      assert r.args[..|e.args|] == r.args[..|e1.args|][..|e.args|];
      forall i | 0 <= i < |values|
        ensures r.args[|e.args| + i] == Argument(values[i])
      {
        if i > 0 {
          assert r.args[|e1.args| + (i - 1)] == Argument(values[1..][i - 1]);
        } else {
          assert r.args[..|e1.args|][|e.args|] == e1.args[|e.args|];
        }
      }
    }
  }
}
