/** Font specifications and the per-axis property interning tables
    (font.c: `mfont__set_property`, `mfont__set_spec_from_plist`,
    `mfont__set_spec_from_face`, `mfont__match_p`, and the table set-up of
    `mfont__init`).

    A font specification holds one small integer per axis; 0 means
    "unspecified".  For the symbolic axes (foundry .. registry) the integer
    is the position of the symbol in that axis's name table, whose slot 0
    holds `nil`. */
module FontProps {

  import opened Plist

  const Foundry: nat := 0
  const Family: nat := 1
  const Weight: nat := 2
  const Style: nat := 3
  const Stretch: nat := 4
  const Adstyle: nat := 5
  const Registry: nat := 6
  const Size: nat := 7
  const ResY: nat := 8
  const FontType: nat := 9

  /** Number of integer fields of a font specification. */
  const NumProps: nat := 10

  /** Number of symbolic axes, each with its own name table. */
  const NumSymbolic: nat := 7

  type MFont = f: seq<int> | |f| == NumProps witness [0, 0, 0, 0, 0, 0, 0, 0, 0, 0]

  /** `MFONT_INIT`: every field unspecified. */
  const ZeroFont: MFont := [0, 0, 0, 0, 0, 0, 0, 0, 0, 0]

  /** One name table per symbolic axis; a symbol's id is its position. */
  type PropTables = seq<seq<Symbol>>

  /** An axis table: `nil` in slot 0, no other `nil`, no name twice. */
  ghost predicate TableOk(names: seq<Symbol>)
  {
    && |names| >= 1
    && names[0] == Nil
    && (forall i :: 1 <= i < |names| ==> names[i] != Nil)
    && (forall i, j :: 0 <= i < j < |names| ==> names[i] != names[j])
  }

  ghost predicate TablesOk(t: PropTables)
  {
    |t| == NumSymbolic && forall k :: 0 <= k < NumSymbolic ==> TableOk(t[k])
  }

  /** Every table of `u` extends the corresponding table of `t`: interning
      only ever appends, so an id once given keeps denoting its symbol. */
  ghost predicate Extends(t: PropTables, u: PropTables)
  {
    |t| == |u| && forall k :: 0 <= k < |t| ==> t[k] <= u[k]
  }

  /** Every symbolic field of `f` is an id present in its table. */
  ghost predicate FontOk(t: PropTables, f: MFont)
  {
    |t| == NumSymbolic && forall k :: 0 <= k < NumSymbolic ==> 0 <= f[k] < |t[k]|
  }

  /** `FONT_PROPERTY`: the symbol a symbolic field denotes. */
  function Name(t: PropTables, f: MFont, key: nat): Symbol
    requires key < NumSymbolic && |t| == NumSymbolic && 0 <= f[key] < |t[key]|
  {
    t[key][f[key]]
  }

  /** `mfont__set_property`: store the id of `val` in field `key`,
      interning `val` at the end of the axis table when it is new.  `nil`
      is always 0. */
  function SetProperty(t: PropTables, f: MFont, key: nat, val: Symbol): (r: (PropTables, MFont))
    requires key < NumSymbolic && TablesOk(t)
    ensures TablesOk(r.0) && Extends(t, r.0)
    ensures forall k :: 0 <= k < NumSymbolic && k != key ==> r.0[k] == t[k]
    ensures forall k :: 0 <= k < NumProps && k != key ==> r.1[k] == f[k]
    ensures 0 <= r.1[key] < |r.0[key]| && r.0[key][r.1[key]] == val
    ensures val == Nil <==> r.1[key] == 0
    ensures val in t[key] ==> r.0 == t
    ensures val !in t[key] ==> r.0[key] == t[key] + [val] && r.1[key] == |t[key]| >= 1
  {
    if val == Nil then (t, f[key := 0])
    else
      var i := IndexOf(t[key], val);
      if i < |t[key]| then (t, f[key := i])
      else
        var names := t[key] + [val];
        assert TableOk(names);
        (t[key := names], f[key := |t[key]|])
  }

  /** Fields `0 .. i` take the symbols `syms[0 .. i]`, processed from `i`
      down as the source's loop does. */
  function SetAxes(t: PropTables, f: MFont, syms: seq<Symbol>, i: int): (r: (PropTables, MFont))
    requires TablesOk(t) && -1 <= i < |syms| && i < NumSymbolic
    ensures TablesOk(r.0) && Extends(t, r.0)
    ensures forall k :: 0 <= k <= i ==> 0 <= r.1[k] < |r.0[k]| && r.0[k][r.1[k]] == syms[k]
    ensures forall k :: i < k < NumProps ==> r.1[k] == f[k]
    decreases i + 1
  {
    if i < 0 then (t, f)
    else
      var (t1, f1) := SetProperty(t, f, i, syms[i]);
      var r := SetAxes(t1, f1, syms, i - 1);
      assert r.0[i][..|t1[i]|] == t1[i];
      r
  }

  /** A font-spec list as the database writes it: one to seven symbols,
      the last of them the registry. */
  predicate WellFormedSpec(items: seq<Elem>)
  {
    1 <= |items| <= NumSymbolic && forall i :: 0 <= i < |items| ==> items[i].Sym?
  }

  function SymNames(items: seq<Elem>): (r: seq<Symbol>)
    requires forall i :: 0 <= i < |items| ==> items[i].Sym?
    ensures |r| == |items| && forall i :: 0 <= i < |items| ==> r[i] == items[i].name
  {
    if |items| == 0 then [] else [items[0].name] + SymNames(items[1..])
  }

  /** Every symbolic field of a specification whose fields come from `t`
      is an id present in `t`. */
  lemma FontOkIntro(t: PropTables, f: MFont, n: nat)
    requires TablesOk(t) && n <= NumSymbolic
    requires forall k :: 0 <= k < n ==> 0 <= f[k] < |t[k]|
    requires forall k :: n <= k < NumSymbolic ==> f[k] == 0
    ensures FontOk(t, f)
  {
    forall k | 0 <= k < NumSymbolic ensures 0 <= f[k] < |t[k]| {
      assert TableOk(t[k]);
    }
  }

  /** The well-formed case of `mfont__set_spec_from_plist`: the registry
      (last symbol) is interned first, then the remaining symbols into
      foundry, family, ... in turn. */
  function SpecFromSymbols(t: PropTables, syms: seq<Symbol>): (r: (PropTables, MFont))
    requires TablesOk(t) && 1 <= |syms| <= NumSymbolic
    ensures TablesOk(r.0) && Extends(t, r.0) && FontOk(r.0, r.1)
    ensures Name(r.0, r.1, Registry) == syms[|syms| - 1]
    ensures forall k :: 0 <= k < |syms| - 1 ==> Name(r.0, r.1, k) == syms[k]
    ensures forall k :: |syms| - 1 <= k < Registry ==> r.1[k] == 0
    ensures forall k :: Registry < k < NumProps ==> r.1[k] == 0
  {
    var n := |syms|;
    var (t1, f1) := SetProperty(t, ZeroFont, Registry, syms[n - 1]);
    var (t2, f2) := SetAxes(t1, f1, syms, n - 2);
    assert t2[Registry][..|t1[Registry]|] == t1[Registry];
    FontOkIntro(t2, f2, NumSymbolic);
    (t2, f2)
  }

  /** The registry a font-spec list names: its last symbol, or `nil`
      when the list is not well formed. */
  function SpecRegistry(items: seq<Elem>): Symbol
  {
    if WellFormedSpec(items) then items[|items| - 1].name else Nil
  }

  /** Read through the tables `t`, `f` is the specification the list
      `items` writes: its last symbol is the registry, the others fill
      foundry, family, ... in turn, and every other field is unspecified.
      A list that is not well formed denotes the unspecified font. */
  ghost predicate Denotes(t: PropTables, f: MFont, items: seq<Elem>)
  {
    && FontOk(t, f)
    && (!WellFormedSpec(items) ==> f == ZeroFont)
    && (WellFormedSpec(items) ==>
          && Name(t, f, Registry) == items[|items| - 1].name
          && (forall k :: 0 <= k < |items| - 1 ==> Name(t, f, k) == items[k].name)
          && (forall k :: |items| - 1 <= k < Registry ==> f[k] == 0)
          && (forall k :: Registry < k < NumProps ==> f[k] == 0))
  }

  /** Interning more names does not change what a specification denotes. */
  lemma DenotesExtends(t: PropTables, u: PropTables, f: MFont, items: seq<Elem>)
    requires Denotes(t, f, items) && Extends(t, u)
    ensures Denotes(u, f, items)
  {
    forall k | 0 <= k < NumSymbolic ensures 0 <= f[k] < |u[k]| && u[k][f[k]] == t[k][f[k]] {
      assert u[k][..|t[k]|] == t[k];
    }
  }

  /** In well-formed tables a list denotes exactly one specification. */
  lemma DenotesUnique(t: PropTables, f: MFont, g: MFont, items: seq<Elem>)
    requires TablesOk(t) && Denotes(t, f, items) && Denotes(t, g, items)
    ensures f == g
  {
    if WellFormedSpec(items) {
      forall k | 0 <= k < NumProps ensures f[k] == g[k] {
        if k < NumSymbolic {
          assert TableOk(t[k]);
          if k == Registry {
            assert Name(t, f, k) == Name(t, g, k);
          } else if k < |items| - 1 {
            assert Name(t, f, k) == items[k].name == Name(t, g, k);
          }
        }
      }
    }
  }

  /** `mfont__set_spec_from_plist`: a list `(FOUNDRY FAMILY ... REGISTRY)`
      of up to seven symbols fills the fields from foundry on, and its last
      symbol is the registry, which is also returned.  A non-symbol element
      leaves the specification unspecified and returns `nil` without
      interning anything. */
  function SpecFromPlist(t: PropTables, items: seq<Elem>): (r: (PropTables, MFont, Symbol))
    requires TablesOk(t)
    ensures TablesOk(r.0) && Extends(t, r.0) && FontOk(r.0, r.1)
    ensures Denotes(r.0, r.1, items) && r.2 == SpecRegistry(items)
    ensures !WellFormedSpec(items) ==> r == (t, ZeroFont, Nil)
    ensures WellFormedSpec(items) ==>
              && r.2 == items[|items| - 1].name
              && Name(r.0, r.1, Registry) == r.2
              && (forall k :: 0 <= k < |items| - 1 ==> Name(r.0, r.1, k) == items[k].name)
              && (forall k :: |items| - 1 <= k < Registry ==> r.1[k] == 0)
              && (forall k :: Registry < k < NumProps ==> r.1[k] == 0)
  {
    if !WellFormedSpec(items) then
      FontOkIntro(t, ZeroFont, 0);
      (t, ZeroFont, Nil)
    else
      var syms := SymNames(items);
      var (t1, f1) := SpecFromSymbols(t, syms);
      (t1, f1, syms[|syms| - 1])
  }

  /** The face properties a realized fontset starts from: the six symbolic
      axes foundry .. adstyle and the size. */
  datatype Face = Face(props: seq<Symbol>, size: int)

  /** `mfont__set_spec_from_face`: the six face symbols interned into
      foundry .. adstyle, registry id 1, the face size, and resolution and
      type 0. */
  function SetSpecFromFace(t: PropTables, face: Face): (r: (PropTables, MFont))
    requires TablesOk(t) && |face.props| == Adstyle + 1 && |t[Registry]| >= 2
    ensures TablesOk(r.0) && Extends(t, r.0) && FontOk(r.0, r.1)
    ensures forall k :: 0 <= k <= Adstyle ==> Name(r.0, r.1, k) == face.props[k]
    ensures r.1[Registry] == 1 && Name(r.0, r.1, Registry) == t[Registry][1]
    ensures r.1[Size] == face.size && r.1[ResY] == 0 && r.1[FontType] == 0
  {
    var (t1, f1) := SetAxes(t, ZeroFont, face.props, Adstyle);
    assert t1[Registry][..|t[Registry]|] == t[Registry];
    var f := f1[Registry := 1][Size := face.size][ResY := 0][FontType := 0];
    FontOkIntro(t1, f, NumSymbolic);
    (t1, f)
  }

  /** `mfont__match_p`: no axis from `prop` down to foundry has both values
      specified and different. */
  function MatchP(font: MFont, spec: MFont, prop: int): (r: bool)
    requires prop < NumProps
    ensures r <==> forall k :: 0 <= k <= prop ==> !(spec[k] != 0 && font[k] != 0 && font[k] != spec[k])
    decreases prop + 1
  {
    if prop < 0 then true
    else if spec[prop] != 0 && font[prop] != 0 && font[prop] != spec[prop] then false
    else MatchP(font, spec, prop - 1)
  }

  /** The names each axis table is seeded with, in id order from 1. */
  const CommonNames: seq<seq<Symbol>> := [
    ["misc", "adobe"],
    ["fixed", "courier", "helvetica", "times"],
    ["ultralight", "extralight", "light", "demilight", "book", "normal",
     "medium", "regular", "demibold", "bold", "extrabold", "ultrabold", "black"],
    ["o", "i", "r", "ri", "ro"],
    ["condensed", "narrow", "semicondensed", "normal", "semiexpanded", "expanded"],
    ["serif", "", "sans"],
    ["iso8859-1"]
  ]

  /** The table set-up of `mfont__init`: each axis table is `nil` followed
      by the axis's common names; the set-up fails if a common name is the
      symbol `nil`. */
  function InitPropertyTables(common: seq<seq<Symbol>>): (r: Option<PropTables>)
    requires |common| == NumSymbolic
    ensures r.None? <==> exists k, j :: 0 <= k < |common| && 0 <= j < |common[k]| && common[k][j] == Nil
    ensures r.Some? ==> |r.value| == NumSymbolic
    ensures r.Some? ==> forall k :: 0 <= k < NumSymbolic ==> r.value[k] == [Nil] + common[k]
  {
    if exists k, j :: 0 <= k < |common| && 0 <= j < |common[k]| && common[k][j] == Nil then None
    else Some(seq(NumSymbolic, k requires 0 <= k < NumSymbolic => [Nil] + common[k]))
  }

  /** The built-in tables are well formed, and registry id 1 is
      `iso8859-1`, which `SetSpecFromFace` relies on. */
  lemma DefaultTables()
    ensures InitPropertyTables(CommonNames).Some?
    ensures var t := InitPropertyTables(CommonNames).value;
            TablesOk(t) && t[Registry][1] == "iso8859-1" && t[Weight][7] == "medium"
  {
    var t := InitPropertyTables(CommonNames);
    assert t.Some? by {
      forall k, j | 0 <= k < |CommonNames| && 0 <= j < |CommonNames[k]|
        ensures CommonNames[k][j] != Nil
      {
        assert k in {0, 1, 2, 3, 4, 5, 6};
      }
    }
    forall k | 0 <= k < NumSymbolic ensures TableOk(t.value[k]) {
      CommonTableOk(k);
    }
  }

  lemma CommonTableOk(k: nat)
    requires k < NumSymbolic
    ensures TableOk([Nil] + CommonNames[k])
  {
    if k == Weight {
      WeightTableOk();
    } else {
      assert k in {0, 1, 3, 4, 5, 6};
    }
  }

  lemma WeightTableOk()
    ensures TableOk([Nil] + CommonNames[Weight])
  {
  }
}
