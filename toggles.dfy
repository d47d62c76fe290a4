/** The toggle names `get_equation` understands, in `unsolver-lib/src/lib.rs`
    and in `rust/src/main.rs`, and the operator list and flags a list of
    toggles configures. */
module Toggles {

  import opened Engine

  /** What one toggle name does. */
  datatype Setting = Enable(op: MathOp) | AllowStackedDivision | Unknown

  /** The toggles of `unsolver-lib/src/lib.rs`. */
  function LibSetting(name: string): Setting {
    if name == "allowAdd" then Enable(Add)
    else if name == "allowSub" then Enable(Sub)
    else if name == "allowMul" then Enable(Mul)
    else if name == "allowDiv" then Enable(Div)
    else if name == "allowStackedDiv" then AllowStackedDivision
    else Unknown
  }

  /** The toggles of `rust/src/main.rs`: those of the library, and `Sin`
      and `Cos`. */
  function CliSetting(name: string): Setting {
    if name == "allowSin" then Enable(Sin)
    else if name == "allowCos" then Enable(Cos)
    else LibSetting(name)
  }

  function SettingOf(name: string, trig: bool): Setting {
    if trig then CliSetting(name) else LibSetting(name)
  }

  /** The operators and the flags a list of toggles configures, starting
      from no operators and `EngineFlags::new()`: each toggle that enables
      an operator appends it; `allowStackedDiv` sets the flag; any other
      name changes nothing. */
  function Configure(names: seq<string>, trig: bool): (r: (seq<MathOp>, EngineFlags))
    ensures forall op :: op in r.0 <==> exists i :: 0 <= i < |names| && SettingOf(names[i], trig) == Enable(op)
    ensures r.1.allowStackedDivision <==> "allowStackedDiv" in names
    ensures !r.1.divisionParent
    ensures forall op :: op in r.0 ==> IsBinary(op) || (trig && IsTrig(op))
  {
    if names == [] then ([], NewFlags())
    else
      var (ops, flags) := Configure(names[..|names| - 1], trig);
      var last := names[|names| - 1];
      assert names == names[..|names| - 1] + [last];
      match SettingOf(last, trig)
      case Enable(op) => (ops + [op], flags)
      case AllowStackedDivision => (ops, flags.(allowStackedDivision := true))
      case Unknown => (ops, flags)
  }

  /** `allowSin` and `allowCos` enable `Sin` and `Cos` in `rust/src/main.rs`;
      the library does not know them and leaves the operator list empty. */
  lemma TrigTogglesOnlyInCli()
    ensures Configure(["allowSin", "allowCos"], true).0 == [Sin, Cos]
    ensures Configure(["allowSin", "allowCos"], false).0 == []
  {
    var names := ["allowSin", "allowCos"];
    assert names[..1] == ["allowSin"] && names[..1][..0] == [];
    assert SettingOf("allowSin", true) == Enable(Sin) && SettingOf("allowCos", true) == Enable(Cos);
    assert SettingOf("allowSin", false) == Unknown && SettingOf("allowCos", false) == Unknown;
    var none: seq<MathOp> := [];
    assert none + [Sin] + [Cos] == [Sin, Cos];
  }

  /** The toggle loop at the start of `get_equation`. */
  method ReadToggles(names: seq<string>, trig: bool) returns (ops: seq<MathOp>, flags: EngineFlags)
    ensures (ops, flags) == Configure(names, trig)
  {
    ops := [];
    flags := NewFlags();
    var i := 0;
    while i < |names|
      invariant i <= |names|
      invariant (ops, flags) == Configure(names[..i], trig)
    {
      var name := names[i];
      assert names[..i + 1][..i] == names[..i];
      match SettingOf(name, trig) {
        case Enable(op) => ops := ops + [op];
        case AllowStackedDivision => flags := flags.(allowStackedDivision := true);
        case Unknown =>
      }
      i := i + 1;
    }
    assert names[..i] == names;
  }
}
