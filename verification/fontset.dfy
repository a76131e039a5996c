/** Fontsets (fontset.c): the per-script/per-language, per-charset and
    fallback font groups, how they are loaded from the database and
    edited, and the registry of fontsets by name.

    A fontset object is shared by pointer in the library; here it is a
    value, and an operation on a fontset returns the new value.  Groups
    hold font specs by value; the spec list a fontset keeps so that equal
    specs are stored once is modelled alongside. */
module Fontsets {

  import opened Plist
  import opened FontProps
  import FontTables

  /** A font group: specs in priority order, each filed under the name of
      the layouter to use with it (`t` for none). */
  type Group = seq<(Symbol, MFont)>

  /** Font groups of one script, by language (`t` for generic). */
  type PerLanguage = seq<(Symbol, Group)>

  /** What a loaded fontset maps characters to. */
  datatype Contents = Contents(perScript: seq<(Symbol, PerLanguage)>,
                               perCharset: seq<(Symbol, Group)>,
                               fallback: Group)

  const EmptyContents: Contents := Contents([], [], [])

  /** A fontset's database entry: what loading it yields, None when the
      load fails. */
  datatype Database = Database(data: Option<seq<Elem>>)

  /** A fontset.  `mdb` is the database entry still to be loaded;
      `contents` is None until the fontset is loaded or created empty;
      `specs` is None until the first load or edit. */
  datatype Fontset = Fontset(name: Symbol, tick: nat, mdb: Option<Database>,
                             contents: Option<Contents>, specs: Option<seq<MFont>>, refs: nat)

  predicate NoDup<X(==)>(s: seq<X>)
  {
    forall i, j :: 0 <= i < j < |s| ==> s[i] != s[j]
  }

  /** Every layouter name in the group is a real key, never `nil`. */
  ghost predicate GroupOk(g: Group, specs: seq<MFont>)
  {
    forall i :: 0 <= i < |g| ==> g[i].0 != Nil && g[i].1 in specs
  }

  /** The shape loading and editing keep: no `nil` language or layouter,
      every stored spec on the spec list, and the spec list without
      repeats. */
  ghost predicate ContentsOk(c: Contents, specs: seq<MFont>)
  {
    && NoDup(specs)
    && (forall i, j :: 0 <= i < |c.perScript| && 0 <= j < |c.perScript[i].1| ==>
          c.perScript[i].1[j].0 != Nil && GroupOk(c.perScript[i].1[j].1, specs))
    && (forall i :: 0 <= i < |c.perCharset| ==> GroupOk(c.perCharset[i].1, specs))
    && GroupOk(c.fallback, specs)
  }

  lemma GroupOkGrow(g: Group, specs: seq<MFont>, specs1: seq<MFont>)
    requires GroupOk(g, specs) && specs <= specs1
    ensures GroupOk(g, specs1)
  {
    forall i | 0 <= i < |g| ensures g[i].1 in specs1 {
      var k :| 0 <= k < |specs| && specs[k] == g[i].1;
      assert specs1[k] == specs[k];
    }
  }

  lemma ContentsOkGrow(c: Contents, specs: seq<MFont>, specs1: seq<MFont>)
    requires ContentsOk(c, specs) && specs <= specs1 && NoDup(specs1)
    ensures ContentsOk(c, specs1)
  {
    forall i, j | 0 <= i < |c.perScript| && 0 <= j < |c.perScript[i].1|
      ensures GroupOk(c.perScript[i].1[j].1, specs1)
    {
      GroupOkGrow(c.perScript[i].1[j].1, specs, specs1);
    }
    forall i | 0 <= i < |c.perCharset| ensures GroupOk(c.perCharset[i].1, specs1) {
      GroupOkGrow(c.perCharset[i].1, specs, specs1);
    }
    GroupOkGrow(c.fallback, specs, specs1);
  }

  /** A spec equal to one on the list is reused; a new one is appended. */
  function InternSpec(specs: seq<MFont>, f: MFont): (r: seq<MFont>)
    ensures f in r && specs <= r
    ensures f in specs ==> r == specs
    ensures f !in specs ==> r == specs + [f]
    ensures NoDup(specs) ==> NoDup(r)
  {
    if f in specs then specs else specs + [f]
  }

  /** Every spec on the list has its symbolic fields interned in `t`. */
  ghost predicate SpecsOk(t: PropTables, specs: seq<MFont>)
  {
    forall i :: 0 <= i < |specs| ==> FontOk(t, specs[i])
  }

  lemma SpecsOkExtends(t: PropTables, u: PropTables, specs: seq<MFont>)
    requires SpecsOk(t, specs) && Extends(t, u)
    ensures SpecsOk(u, specs)
  {
    forall i | 0 <= i < |specs| ensures FontOk(u, specs[i]) {
      FontTables.ExtendsKeepsFont(t, u, specs[i]);
    }
  }

  lemma SpecsOkIntern(t: PropTables, specs: seq<MFont>, f: MFont)
    requires SpecsOk(t, specs) && FontOk(t, f)
    ensures SpecsOk(t, InternSpec(specs, f))
  {
  }

  // ---------------------------------------------------------------------
  // Loading

  /** A FONT-SPEC-ELT the loader accepts: a list whose first item is the
      spec list. */
  predicate GroupItemOk(e: Elem)
  {
    e.List? && |e.items| >= 1 && e.items[0].List?
  }

  /** The layouter a FONT-SPEC-ELT names: its second item when that is a
      symbol, `nil` and absence both read as `t`. */
  function ItemLayouter(items: seq<Elem>): (r: Symbol)
    ensures r != Nil
    ensures |items| >= 2 && items[1].Sym? && items[1].name != Nil ==> r == items[1].name
  {
    if |items| >= 2 && items[1].Sym? then NilAsT(items[1].name) else T
  }

  /** The entry an accepted FONT-SPEC-ELT stands for: the spec its spec
      list denotes, filed under its layouter. */
  ghost predicate GroupEntryOf(t: PropTables, e: Elem, entry: (Symbol, MFont))
    requires GroupItemOk(e)
  {
    entry.0 == ItemLayouter(e.items) && Denotes(t, entry.1, e.items[0].items)
  }

  /** `g` holds, in order, the entry of each accepted FONT-SPEC-ELT of
      `elems` and nothing else. */
  ghost predicate GroupOf(t: PropTables, elems: seq<Elem>, g: Group)
    decreases |elems|
  {
    if |elems| == 0 then g == []
    else
      var e := elems[|elems| - 1];
      if GroupItemOk(e) then
        |g| > 0 && GroupEntryOf(t, e, g[|g| - 1]) && GroupOf(t, elems[..|elems| - 1], g[..|g| - 1])
      else GroupOf(t, elems[..|elems| - 1], g)
  }

  lemma {:induction false} GroupOfExtends(t: PropTables, u: PropTables, elems: seq<Elem>, g: Group)
    requires GroupOf(t, elems, g) && Extends(t, u)
    ensures GroupOf(u, elems, g)
    decreases |elems|
  {
    if |elems| > 0 {
      var e := elems[|elems| - 1];
      if GroupItemOk(e) {
        GroupOfExtends(t, u, elems[..|elems| - 1], g[..|g| - 1]);
        DenotesExtends(t, u, g[|g| - 1].1, e.items[0].items);
      } else {
        GroupOfExtends(t, u, elems[..|elems| - 1], g);
      }
    }
  }

  /** The relation pins the group: over well-formed tables, the elements
      determine it completely. */
  lemma {:induction false} GroupOfUnique(t: PropTables, elems: seq<Elem>, g1: Group, g2: Group)
    requires TablesOk(t) && GroupOf(t, elems, g1) && GroupOf(t, elems, g2)
    ensures g1 == g2
    decreases |elems|
  {
    if |elems| > 0 {
      var e := elems[|elems| - 1];
      if GroupItemOk(e) {
        GroupOfUnique(t, elems[..|elems| - 1], g1[..|g1| - 1], g2[..|g2| - 1]);
        DenotesUnique(t, g1[|g1| - 1].1, g2[|g2| - 1].1, e.items[0].items);
        assert g1 == g1[..|g1| - 1] + [g1[|g1| - 1]];
        assert g2 == g2[..|g2| - 1] + [g2[|g2| - 1]];
      } else {
        GroupOfUnique(t, elems[..|elems| - 1], g1, g2);
      }
    }
  }

  /** `load_font_group`: the accepted FONT-SPEC-ELTs of `elems` are
      appended to the group in order; malformed ones are skipped. */
  function LoadFontGroup(t: PropTables, group: Group, specs: seq<MFont>, elems: seq<Elem>)
    : (r: (PropTables, Group, seq<MFont>))
    requires TablesOk(t)
    ensures TablesOk(r.0) && Extends(t, r.0)
    ensures group <= r.1 && |r.1| == |group| + CountOk(elems, GroupItemOk)
    ensures specs <= r.2 && (NoDup(specs) ==> NoDup(r.2))
    ensures GroupOk(group, specs) ==> GroupOk(r.1, r.2)
    ensures SpecsOk(t, specs) ==> SpecsOk(r.0, r.2)
    decreases |elems|
  {
    if |elems| == 0 then (t, group, specs)
    else
      var (t1, g1, s1) := LoadFontGroup(t, group, specs, elems[..|elems| - 1]);
      var e := elems[|elems| - 1];
      if !GroupItemOk(e) then (t1, g1, s1)
      else
        var (t2, spec, _) := SpecFromPlist(t1, e.items[0].items);
        FontTables.ExtendsTrans(t, t1, t2);
        var s2 := InternSpec(s1, spec);
        assert SpecsOk(t, specs) ==> SpecsOk(t2, s2) by {
          if SpecsOk(t, specs) {
            SpecsOkExtends(t1, t2, s1);
            SpecsOkIntern(t2, s1, spec);
          }
        }
        var g2 := g1 + [(ItemLayouter(e.items), spec)];
        assert GroupOk(g1, s1) ==> GroupOk(g2, s2) by {
          if GroupOk(g1, s1) {
            GroupOkGrow(g1, s1, s2);
          }
        }
        (t2, g2, s2)
  }

  /** What `load_font_group` adds to the group is, in order, the entry of
      each accepted element and nothing else. */
  lemma {:induction false} LoadFontGroupContents(t: PropTables, group: Group, specs: seq<MFont>, elems: seq<Elem>)
    requires TablesOk(t)
    ensures var r := LoadFontGroup(t, group, specs, elems); GroupOf(r.0, elems, r.1[|group|..])
    decreases |elems|
  {
    if |elems| == 0 {
      assert group[|group|..] == [];
    } else {
      var init := elems[..|elems| - 1];
      var e := elems[|elems| - 1];
      var (t1, g1, s1) := LoadFontGroup(t, group, specs, init);
      LoadFontGroupContents(t, group, specs, init);
      if GroupItemOk(e) {
        var (t2, spec, _) := SpecFromPlist(t1, e.items[0].items);
        var x := (ItemLayouter(e.items), spec);
        assert LoadFontGroup(t, group, specs, elems) == (t2, g1 + [x], InternSpec(s1, spec));
        GroupOfExtends(t1, t2, init, g1[|group|..]);
        assert (g1 + [x])[|group|..] == g1[|group|..] + [x];
        GroupOfSnoc(t2, elems, g1[|group|..], x);
      } else {
        assert LoadFontGroup(t, group, specs, elems) == (t1, g1, s1);
      }
    }
  }

  lemma GroupOfSnoc(t: PropTables, elems: seq<Elem>, g: Group, x: (Symbol, MFont))
    requires |elems| > 0 && GroupItemOk(elems[|elems| - 1]) && GroupEntryOf(t, elems[|elems| - 1], x)
    requires GroupOf(t, elems[..|elems| - 1], g)
    ensures GroupOf(t, elems, g + [x])
  {
    assert (g + [x])[..|g|] == g;
  }

  /** What `load_font_group` adds does not depend on the group it adds to. */
  lemma {:induction false} LoadFontGroupAppends(t: PropTables, group: Group, specs: seq<MFont>, elems: seq<Elem>)
    requires TablesOk(t)
    ensures var r := LoadFontGroup(t, [], specs, elems);
            LoadFontGroup(t, group, specs, elems) == (r.0, group + r.1, r.2)
    decreases |elems|
  {
    if |elems| > 0 {
      var init := elems[..|elems| - 1];
      var e := elems[|elems| - 1];
      LoadFontGroupAppends(t, group, specs, init);
      var r1 := LoadFontGroup(t, [], specs, init);
      if GroupItemOk(e) {
        var (t2, spec, _) := SpecFromPlist(r1.0, e.items[0].items);
        var x := (ItemLayouter(e.items), spec);
        assert LoadFontGroup(t, [], specs, elems) == (t2, r1.1 + [x], InternSpec(r1.2, spec));
        assert LoadFontGroup(t, group, specs, elems) == (t2, group + r1.1 + [x], InternSpec(r1.2, spec));
        assert group + r1.1 + [x] == group + (r1.1 + [x]);
      } else {
        assert LoadFontGroup(t, [], specs, elems) == r1;
        assert LoadFontGroup(t, group, specs, elems) == LoadFontGroup(t, group, specs, init);
      }
    } else {
      assert group + [] == group;
    }
  }

  /** Groups the same elements produce chain: loading `a` then `b` gives
      the entries of `a` followed by those of `b`. */
  lemma {:induction false} GroupOfAppend(t: PropTables, a: seq<Elem>, b: seq<Elem>, ga: Group, gb: Group)
    requires GroupOf(t, a, ga) && GroupOf(t, b, gb)
    ensures GroupOf(t, a + b, ga + gb)
    decreases |b|
  {
    if |b| == 0 {
      assert a + b == a && ga + gb == ga;
    } else {
      var e := b[|b| - 1];
      assert (a + b)[..|a + b| - 1] == a + b[..|b| - 1];
      if GroupItemOk(e) {
        GroupOfAppend(t, a, b[..|b| - 1], ga, gb[..|gb| - 1]);
        assert (ga + gb)[..|ga + gb| - 1] == ga + gb[..|gb| - 1];
      } else {
        GroupOfAppend(t, a, b[..|b| - 1], ga, gb);
      }
    }
  }

  /** An element of the fontset data the loader accepts: a script symbol
      and at least one list after it. */
  predicate EntryOk(e: Elem)
  {
    e.List? && |e.items| >= 2 && e.items[0].Sym? && e.items[1].List?
  }

  /** An accepted element whose first list starts with a list, i.e. a
      FONT-SPEC-ELT: a charset entry. */
  predicate CharsetForm(e: Elem)
    requires EntryOk(e)
  {
    |e.items[1].items| >= 1 && e.items[1].items[0].List?
  }

  /** A (LANGUAGE FONT-SPEC-ELT ...) list the loader accepts. */
  predicate LanguageItemOk(e: Elem)
  {
    e.List? && |e.items| >= 1 && e.items[0].Sym?
  }

  /** The language lists of one script entry, in order.  The first
      malformed one abandons the rest of the entry; what was loaded
      before it stays. */
  function LoadLanguages(t: PropTables, pl: PerLanguage, specs: seq<MFont>, elems: seq<Elem>)
    : (r: (PropTables, PerLanguage, seq<MFont>))
    requires TablesOk(t)
    ensures TablesOk(r.0) && Extends(t, r.0)
    ensures specs <= r.2 && (NoDup(specs) ==> NoDup(r.2))
    ensures (forall j :: 0 <= j < |pl| ==> pl[j].0 != Nil && GroupOk(pl[j].1, specs))
            ==> forall j :: 0 <= j < |r.1| ==> r.1[j].0 != Nil && GroupOk(r.1[j].1, r.2)
    ensures |elems| == 0 || !LanguageItemOk(elems[0]) ==> r == (t, pl, specs)
    ensures SpecsOk(t, specs) ==> SpecsOk(r.0, r.2)
    decreases |elems|
  {
    if |elems| == 0 || !LanguageItemOk(elems[0]) then (t, pl, specs)
    else
      var e := elems[0];
      var lang := NilAsT(e.items[0].name);
      var (pl1, i) := Slot(pl, lang, []);
      var (t1, g, s1) := LoadFontGroup(t, pl1[i].1, specs, e.items[1..]);
      var pl2 := pl1[i := (lang, g)];
      assert (forall j :: 0 <= j < |pl| ==> pl[j].0 != Nil && GroupOk(pl[j].1, specs))
             ==> forall j :: 0 <= j < |pl2| ==> pl2[j].0 != Nil && GroupOk(pl2[j].1, s1) by {
        if forall j :: 0 <= j < |pl| ==> pl[j].0 != Nil && GroupOk(pl[j].1, specs) {
          forall j | 0 <= j < |pl2| ensures pl2[j].0 != Nil && GroupOk(pl2[j].1, s1) {
            if j != i {
              assert pl2[j] == pl[j];
              GroupOkGrow(pl[j].1, specs, s1);
            } else if FindKey(pl, lang).Some? {
              assert pl1[i] == pl[i];
            }
          }
        }
      }
      var r := LoadLanguages(t1, pl2, s1, elems[1..]);
      FontTables.ExtendsTrans(t, t1, r.0);
      r
  }

  /** The language items of a script entry the loader reaches: those
      before the first malformed one. */
  function LoadedItems(elems: seq<Elem>): (r: seq<Elem>)
    ensures |r| <= |elems| && forall i :: 0 <= i < |r| ==> r[i] == elems[i] && LanguageItemOk(r[i])
    ensures |r| < |elems| ==> !LanguageItemOk(elems[|r|])
  {
    if |elems| == 0 || !LanguageItemOk(elems[0]) then [] else [elems[0]] + LoadedItems(elems[1..])
  }

  /** The language an item is for, `nil` read as `t`. */
  function ItemLang(e: Elem): Symbol
    requires LanguageItemOk(e)
  {
    NilAsT(e.items[0].name)
  }

  /** The FONT-SPEC-ELTs the items give language `lang`, in order. */
  function LangElems(items: seq<Elem>, lang: Symbol): seq<Elem>
    requires forall i :: 0 <= i < |items| ==> LanguageItemOk(items[i])
  {
    if |items| == 0 then []
    else (if ItemLang(items[0]) == lang then items[0].items[1..] else []) + LangElems(items[1..], lang)
  }

  /** Some item is for language `lang`. */
  predicate NamesLang(items: seq<Elem>, lang: Symbol)
    requires forall i :: 0 <= i < |items| ==> LanguageItemOk(items[i])
  {
    exists i :: 0 <= i < |items| && ItemLang(items[i]) == lang
  }

  /** Some item is for `lang` exactly when the first is or a later one is. */
  lemma NamesLangCons(items: seq<Elem>, lang: Symbol)
    requires |items| > 0 && forall i :: 0 <= i < |items| ==> LanguageItemOk(items[i])
    ensures NamesLang(items, lang) <==> ItemLang(items[0]) == lang || NamesLang(items[1..], lang)
  {
    if NamesLang(items[1..], lang) {
      var j :| 0 <= j < |items[1..]| && ItemLang(items[1..][j]) == lang;
      assert items[j + 1] == items[1..][j];
    }
    if NamesLang(items, lang) && ItemLang(items[0]) != lang {
      var j :| 0 <= j < |items| && ItemLang(items[j]) == lang;
      assert items[1..][j - 1] == items[j];
    }
  }

  lemma {:induction false} NoItemNoElems(items: seq<Elem>, lang: Symbol)
    requires forall i :: 0 <= i < |items| ==> LanguageItemOk(items[i])
    requires !NamesLang(items, lang)
    ensures LangElems(items, lang) == []
  {
    if |items| > 0 {
      NamesLangCons(items, lang);
      NoItemNoElems(items[1..], lang);
    }
  }

  /** The step of LoadLanguagesGroups for an item that is for `k`: the
      item's entries land right after the old group, and the later items'
      land after those. */
  lemma LoadLanguagesHit(t1: PropTables, u: PropTables, before: Group, g: Group, G: Group,
                         first: seq<Elem>, later: seq<Elem>, named: bool)
    requires before <= g && GroupOf(t1, first, g[|before|..]) && Extends(t1, u)
    requires named ==> g <= G && GroupOf(u, later, G[|g|..])
    requires !named ==> G == g && later == []
    ensures before <= G && GroupOf(u, first + later, G[|before|..])
  {
    GroupOfExtends(t1, u, first, g[|before|..]);
    if named {
      assert G[|before|..] == g[|before|..] + G[|g|..];
      GroupOfAppend(u, first, later, g[|before|..], G[|g|..]);
    } else {
      assert first + later == first;
    }
  }

  /** What loading language items does to language `k`: if no item is for
      it, its group is unchanged; otherwise its group (created empty if
      missing) ends with the entries of every item for it, in order, after
      what it held before. */
  ghost predicate LangLoaded(u: PropTables, before: PerLanguage, after: PerLanguage, items: seq<Elem>, k: Symbol)
    requires forall i :: 0 <= i < |items| ==> LanguageItemOk(items[i])
  {
    && (!NamesLang(items, k) ==> FindGroup(after, k) == FindGroup(before, k))
    && (NamesLang(items, k) ==>
          var prior := OrEmpty(FindGroup(before, k));
          && FindGroup(after, k).Some? && prior <= FindGroup(after, k).value
          && GroupOf(u, LangElems(items, k), FindGroup(after, k).value[|prior|..]))
  }

  /** LoadLanguages gives every language what LangLoaded describes for the
      items it reaches. */
  lemma {:induction false} LoadLanguagesGroups(t: PropTables, pl: PerLanguage, specs: seq<MFont>,
                                                elems: seq<Elem>, k: Symbol)
    requires TablesOk(t)
    ensures var r := LoadLanguages(t, pl, specs, elems); LangLoaded(r.0, pl, r.1, LoadedItems(elems), k)
    decreases |elems|
  {
    if |elems| > 0 && LanguageItemOk(elems[0]) {
      var e := elems[0];
      var lang := ItemLang(e);
      var (pl1, i) := Slot(pl, lang, []);
      var (t1, g, s1) := LoadFontGroup(t, pl1[i].1, specs, e.items[1..]);
      LoadFontGroupContents(t, pl1[i].1, specs, e.items[1..]);
      var pl2 := pl1[i := (lang, g)];
      var r := LoadLanguages(t1, pl2, s1, elems[1..]);
      assert LoadLanguages(t, pl, specs, elems) == r;
      var items := LoadedItems(elems);
      var rest := LoadedItems(elems[1..]);
      assert items == [e] + rest;
      assert items[1..] == rest;
      KeyedUpdate(pl, lang, [], g);
      LoadLanguagesGroups(t1, pl2, s1, elems[1..], k);
      NamesLangCons(items, k);
      if k != lang {
        assert FindGroup(pl2, k) == FindGroup(pl, k);
        assert LangElems(items, k) == [] + LangElems(rest, k) == LangElems(rest, k);
        assert NamesLang(items, k) == NamesLang(rest, k);
      } else {
        var before := OrEmpty(FindGroup(pl, k));
        assert pl1[i].1 == before;
        assert LangElems(items, k) == e.items[1..] + LangElems(rest, k);
        if !NamesLang(rest, k) {
          NoItemNoElems(rest, k);
        }
        LoadLanguagesHit(t1, r.0, before, g, FindGroup(r.1, k).value, e.items[1..],
                         LangElems(rest, k), NamesLang(rest, k));
      }
    }
  }

  /** One element of the fontset data.  A `nil` script feeds the fallback
      group; a charset entry feeds the group of that charset; any other
      feeds the script's per-language groups.  Groups are created on
      first mention at the end of their list; a malformed element is
      skipped. */
  function LoadEntry(t: PropTables, c: Contents, specs: seq<MFont>, e: Elem)
    : (r: (PropTables, Contents, seq<MFont>))
    requires TablesOk(t) && ContentsOk(c, specs)
    ensures TablesOk(r.0) && Extends(t, r.0) && ContentsOk(r.1, r.2) && specs <= r.2
    ensures SpecsOk(t, specs) ==> SpecsOk(r.0, r.2)
    ensures !EntryOk(e) ==> r == (t, c, specs)
    ensures EntryOk(e) && e.items[0].name == Nil ==>
              r.1.perScript == c.perScript && r.1.perCharset == c.perCharset && c.fallback <= r.1.fallback
    ensures EntryOk(e) && e.items[0].name != Nil && CharsetForm(e) ==>
              && r.1.perScript == c.perScript && r.1.fallback == c.fallback
              && FindKey(r.1.perCharset, e.items[0].name).Some?
              && (forall k :: k != e.items[0].name ==> FindGroup(r.1.perCharset, k) == FindGroup(c.perCharset, k))
    ensures EntryOk(e) && e.items[0].name != Nil && !CharsetForm(e) ==>
              && r.1.perCharset == c.perCharset && r.1.fallback == c.fallback
              && FindKey(r.1.perScript, e.items[0].name).Some?
              && (forall k :: k != e.items[0].name ==> FindLanguages(r.1.perScript, k) == FindLanguages(c.perScript, k))
    ensures EntryOk(e) && e.items[0].name == Nil ==>
              GroupOf(r.0, e.items[1..], r.1.fallback[|c.fallback|..])
    ensures EntryOk(e) && e.items[0].name != Nil && CharsetForm(e) ==>
              var before := OrEmpty(FindGroup(c.perCharset, e.items[0].name));
              var g := FindGroup(r.1.perCharset, e.items[0].name).value;
              before <= g && GroupOf(r.0, e.items[1..], g[|before|..])
    ensures EntryOk(e) && e.items[0].name != Nil && !CharsetForm(e) ==>
              var before := OrLanguages(FindLanguages(c.perScript, e.items[0].name));
              var pl := FindLanguages(r.1.perScript, e.items[0].name).value;
              forall k :: LangLoaded(r.0, before, pl, LoadedItems(e.items[1..]), k)
  {
    if !EntryOk(e) then (t, c, specs)
    else
      var script := e.items[0].name;
      var rest := e.items[1..];
      if script == Nil then
        var (t1, g, s1) := LoadFontGroup(t, c.fallback, specs, rest);
        LoadFontGroupContents(t, c.fallback, specs, rest);
        ContentsOkGrow(c, specs, s1);
        (t1, c.(fallback := g), s1)
      else if CharsetForm(e) then LoadCharsetEntry(t, c, specs, script, rest)
      else LoadScriptEntry(t, c, specs, script, rest)
  }

  /** A charset entry: its FONT-SPEC-ELTs are added to the group of the
      charset, which is created empty at the end of the per-charset list on
      first mention. */
  function LoadCharsetEntry(t: PropTables, c: Contents, specs: seq<MFont>, charset: Symbol, rest: seq<Elem>)
    : (r: (PropTables, Contents, seq<MFont>))
    requires TablesOk(t) && ContentsOk(c, specs)
    ensures TablesOk(r.0) && Extends(t, r.0) && ContentsOk(r.1, r.2) && specs <= r.2
    ensures SpecsOk(t, specs) ==> SpecsOk(r.0, r.2)
    ensures r.1.perScript == c.perScript && r.1.fallback == c.fallback
    ensures FindKey(r.1.perCharset, charset).Some?
    ensures forall k :: k != charset ==> FindGroup(r.1.perCharset, k) == FindGroup(c.perCharset, k)
    ensures var before := OrEmpty(FindGroup(c.perCharset, charset));
            var g := FindGroup(r.1.perCharset, charset).value;
            before <= g && GroupOf(r.0, rest, g[|before|..])
  {
    var (pc, i) := Slot(c.perCharset, charset, []);
    var (t1, g, s1) := LoadFontGroup(t, pc[i].1, specs, rest);
    LoadFontGroupContents(t, pc[i].1, specs, rest);
    var pc1 := pc[i := (charset, g)];
    ContentsOkGrow(c, specs, s1);
    KeyedUpdate(c.perCharset, charset, [], g);
    assert GroupOk(pc[i].1, specs) by {
      if FindKey(c.perCharset, charset).Some? { assert pc[i] == c.perCharset[i]; }
    }
    assert forall j :: 0 <= j < |pc1| ==> GroupOk(pc1[j].1, s1) by {
      forall j | 0 <= j < |pc1| ensures GroupOk(pc1[j].1, s1) {
        if j != i { assert pc1[j] == c.perCharset[j]; }
      }
    }
    (t1, c.(perCharset := pc1), s1)
  }

  /** A script entry: its language items are loaded into the script's
      per-language groups, the script being created with no languages at
      the end of the per-script list on first mention. */
  function LoadScriptEntry(t: PropTables, c: Contents, specs: seq<MFont>, script: Symbol, rest: seq<Elem>)
    : (r: (PropTables, Contents, seq<MFont>))
    requires TablesOk(t) && ContentsOk(c, specs)
    ensures TablesOk(r.0) && Extends(t, r.0) && ContentsOk(r.1, r.2) && specs <= r.2
    ensures SpecsOk(t, specs) ==> SpecsOk(r.0, r.2)
    ensures r.1.perCharset == c.perCharset && r.1.fallback == c.fallback
    ensures FindKey(r.1.perScript, script).Some?
    ensures forall k :: k != script ==> FindLanguages(r.1.perScript, k) == FindLanguages(c.perScript, k)
    ensures var before := OrLanguages(FindLanguages(c.perScript, script));
            var pl := FindLanguages(r.1.perScript, script).value;
            forall k :: LangLoaded(r.0, before, pl, LoadedItems(rest), k)
  {
    var (ps, i) := Slot(c.perScript, script, []);
    var (t1, pl, s1) := LoadLanguages(t, ps[i].1, specs, rest);
    var ps1 := ps[i := (script, pl)];
    ContentsOkGrow(c, specs, s1);
    KeyedUpdate(c.perScript, script, [], pl);
    assert ps[i].1 == OrLanguages(FindLanguages(c.perScript, script));
    assert forall k :: LangLoaded(t1, ps[i].1, pl, LoadedItems(rest), k) by {
      forall k { LoadLanguagesGroups(t, ps[i].1, specs, rest, k); }
    }
    assert forall j :: 0 <= j < |ps[i].1| ==> ps[i].1[j].0 != Nil && GroupOk(ps[i].1[j].1, specs) by {
      if FindKey(c.perScript, script).Some? { assert ps[i] == c.perScript[i]; }
    }
    assert forall a, b :: 0 <= a < |ps1| && 0 <= b < |ps1[a].1| ==>
             ps1[a].1[b].0 != Nil && GroupOk(ps1[a].1[b].1, s1) by {
      forall a, b | 0 <= a < |ps1| && 0 <= b < |ps1[a].1|
        ensures ps1[a].1[b].0 != Nil && GroupOk(ps1[a].1[b].1, s1)
      {
        if a != i { assert ps1[a] == c.perScript[a]; }
      }
    }
    (t1, c.(perScript := ps1), s1)
  }

  /** The value filed under `k`, if any. */
  function FindGroup<V>(al: seq<(Symbol, V)>, k: Symbol): (r: Option<V>)
    ensures r.Some? <==> FindKey(al, k).Some?
    ensures r.Some? ==> r.value == al[FindKey(al, k).value].1
  {
    match FindKey(al, k)
    case None => None
    case Some(i) => Some(al[i].1)
  }

  /** The per-language groups of `script`, if any. */
  function FindLanguages(ps: seq<(Symbol, PerLanguage)>, script: Symbol): Option<PerLanguage>
  {
    FindGroup(ps, script)
  }

  /** Replacing the value at the slot of `k` changes what `k` finds and
      nothing else. */
  lemma KeyedUpdate<V>(al: seq<(Symbol, V)>, k: Symbol, empty: V, v: V)
    ensures var (al1, i) := Slot(al, k, empty);
            && FindGroup(al1[i := (k, v)], k) == Some(v)
            && forall k1 :: k1 != k ==> FindGroup(al1[i := (k, v)], k1) == FindGroup(al, k1)
  {
    var (al1, i) := Slot(al, k, empty);
    var al2 := al1[i := (k, v)];
    forall k1 | k1 != k ensures FindGroup(al2, k1) == FindGroup(al, k1) {
      var f := FindKey(al, k1);
      var f2 := FindKey(al2, k1);
      assert forall j :: 0 <= j < |al| && j != i ==> al2[j] == al[j];
      if f.Some? {
        assert al2[f.value] == al[f.value];
        assert f2.Some? && f2.value <= f.value;
        assert al2[f2.value] == al[f2.value];
      }
    }
    assert forall j :: 0 <= j < i ==> al2[j] == al1[j] && al1[j].0 != k;
    assert al2[i].0 == k;
    assert FindKey(al2, k) == Some(i);
  }

  /** `load_fontset_contents`' loop: the elements in order. */
  function LoadContents(t: PropTables, data: seq<Elem>): (r: (PropTables, Contents, seq<MFont>))
    requires TablesOk(t)
    ensures TablesOk(r.0) && Extends(t, r.0) && ContentsOk(r.1, r.2) && SpecsOk(r.0, r.2)
  {
    if |data| == 0 then (t, EmptyContents, [])
    else
      var (t1, c1, s1) := LoadContents(t, data[..|data| - 1]);
      var r := LoadEntry(t1, c1, s1, data[|data| - 1]);
      FontTables.ExtendsTrans(t, t1, r.0);
      r
  }

  /** The spec list of a fontset, empty while it has none. */
  function SpecsOf(fs: Fontset): seq<MFont>
  {
    if fs.specs.Some? then fs.specs.value else []
  }

  /** A fontset that can be read: loaded or created empty, or still
      holding the database entry to load.  Loaded contents keep their
      shape. */
  ghost predicate FontsetOk(fs: Fontset)
  {
    && (fs.mdb.Some? || fs.contents.Some?)
    && (fs.contents.Some? ==> ContentsOk(fs.contents.value, SpecsOf(fs)))
  }

  /** A fontset whose stored specs are interned in `t`. */
  ghost predicate FontsetReady(t: PropTables, fs: Fontset)
  {
    FontsetOk(fs) && SpecsOk(t, SpecsOf(fs))
  }

  /** `load_fontset_contents` as written: the contents are reset to empty
      and then filled from the data.  When the data fails to load the
      database entry stays, so the next use loads again and resets the
      contents once more. */
  function LoadFontsetContentsAsWritten(t: PropTables, fs: Fontset): (r: (PropTables, Fontset))
    requires TablesOk(t) && fs.mdb.Some?
    ensures TablesOk(r.0) && Extends(t, r.0) && FontsetReady(r.0, r.1)
    ensures r.1.name == fs.name && r.1.tick == fs.tick && r.1.refs == fs.refs
    ensures fs.mdb.value.data.None? ==> r == (t, fs.(contents := Some(EmptyContents), specs := Some([])))
    ensures fs.mdb.value.data.Some? ==>
              var (t1, c, specs) := LoadContents(t, fs.mdb.value.data.value);
              r == (t1, fs.(mdb := None, contents := Some(c), specs := Some(specs)))
  {
    var empty := fs.(contents := Some(EmptyContents), specs := Some([]));
    if fs.mdb.value.data.None? then (t, empty)
    else
      var (t1, c, specs) := LoadContents(t, fs.mdb.value.data.value);
      (t1, fs.(mdb := None, contents := Some(c), specs := Some(specs)))
  }

  /** Whatever was put into a fontset whose data failed to load is lost
      at its next use: loading runs again and empties it. */
  lemma FailedLoadForgetsEdits(t: PropTables, fs: Fontset, edited: Contents, specs: seq<MFont>)
    requires TablesOk(t) && fs.mdb.Some? && fs.mdb.value.data.None?
    ensures var (t1, fs1) := LoadFontsetContentsAsWritten(t, fs);
            var fs2 := fs1.(contents := Some(edited), specs := Some(specs));
            && fs2.mdb.Some?
            && LoadFontsetContentsAsWritten(t1, fs2).1.contents == Some(EmptyContents)
  {
  }

  /** `load_fontset_contents` with the database entry dropped whatever the
      outcome, as the fontset's own description of the member says: the
      data is loaded at most once. */
  function LoadFontsetContents(t: PropTables, fs: Fontset): (r: (PropTables, Fontset))
    requires TablesOk(t) && fs.mdb.Some?
    ensures TablesOk(r.0) && Extends(t, r.0) && FontsetReady(r.0, r.1)
    ensures r.1.mdb.None? && r.1.contents.Some?
    ensures r.1.name == fs.name && r.1.tick == fs.tick && r.1.refs == fs.refs
    ensures fs.mdb.value.data.None? ==> r == (t, fs.(mdb := None, contents := Some(EmptyContents), specs := Some([])))
    ensures fs.mdb.value.data.Some? ==> r == LoadFontsetContentsAsWritten(t, fs)
  {
    var (t1, fs1) := LoadFontsetContentsAsWritten(t, fs);
    (t1, fs1.(mdb := None))
  }

  /** Once loaded, a fontset's contents are only changed by edits: no
      later use loads it again. */
  lemma LoadOnce(t: PropTables, fs: Fontset, edited: Contents, specs: seq<MFont>)
    requires TablesOk(t) && fs.mdb.Some? && ContentsOk(edited, specs)
    ensures var (_, fs1) := LoadFontsetContents(t, fs);
            var fs2 := fs1.(contents := Some(edited), specs := Some(specs));
            EnsureLoaded(t, fs2) == (t, fs2)
  {
  }

  /** Load a fontset if it still has its database entry. */
  function EnsureLoaded(t: PropTables, fs: Fontset): (r: (PropTables, Fontset))
    requires TablesOk(t) && FontsetOk(fs)
    ensures TablesOk(r.0) && Extends(t, r.0) && FontsetOk(r.1) && r.1.contents.Some? && r.1.mdb.None?
    ensures r.1.name == fs.name && r.1.tick == fs.tick && r.1.refs == fs.refs
    ensures fs.mdb.None? ==> r == (t, fs)
    ensures FontsetReady(t, fs) ==> FontsetReady(r.0, r.1)
  {
    if fs.mdb.Some? then LoadFontsetContents(t, fs) else (t, fs)
  }

  // ---------------------------------------------------------------------
  // mfontset_modify_entry

  /** Where a new entry goes in a group: -1 puts it first, 1 puts it last,
      any other value makes it the group's only entry. */
  function Apply(g: Group, how: int, entry: (Symbol, MFont)): (r: Group)
    ensures how == -1 ==> r == [entry] + g
    ensures how == 1 ==> r == g + [entry]
    ensures how != -1 && how != 1 ==> r == [entry]
    ensures entry in r && forall x :: x in r ==> x == entry || x in g
  {
    if how == -1 then [entry] + g
    else if how == 1 then g + [entry]
    else [entry]
  }

  /** The group filed under a script and a language, if any. */
  function GroupAt(ps: seq<(Symbol, PerLanguage)>, script: Symbol, lang: Symbol): Option<Group>
  {
    match FindLanguages(ps, script)
    case None => None
    case Some(pl) => FindGroup(pl, lang)
  }

  function OrEmpty(g: Option<Group>): Group
  {
    if g.Some? then g.value else []
  }

  function OrLanguages(pl: Option<PerLanguage>): PerLanguage
  {
    if pl.Some? then pl.value else []
  }

  /** Apply the edit to the group of `script` and `lang`, creating the
      script's entry and the language's group first when missing. */
  function EditScript(ps: seq<(Symbol, PerLanguage)>, script: Symbol, lang: Symbol, how: int,
                      entry: (Symbol, MFont)): (r: seq<(Symbol, PerLanguage)>)
    ensures GroupAt(r, script, lang) == Some(Apply(OrEmpty(GroupAt(ps, script, lang)), how, entry))
    ensures forall s, l :: s != script || l != lang ==> GroupAt(r, s, l) == GroupAt(ps, s, l)
  {
    var (ps1, i) := Slot(ps, script, []);
    var (pl1, j) := Slot(ps1[i].1, lang, []);
    var g := Apply(pl1[j].1, how, entry);
    var pl2 := pl1[j := (lang, g)];
    KeyedUpdate(ps, script, [], pl2);
    KeyedUpdate(ps1[i].1, lang, [], g);
    assert FindLanguages(ps, script).Some? ==> ps1[i].1 == FindLanguages(ps, script).value;
    assert FindLanguages(ps, script).None? ==> ps1[i].1 == [];
    ps1[i := (script, pl2)]
  }

  /** Apply the edit to the group of `charset`, creating it when missing. */
  function EditCharset(pc: seq<(Symbol, Group)>, charset: Symbol, how: int, entry: (Symbol, MFont))
    : (r: seq<(Symbol, Group)>)
    ensures FindGroup(r, charset) == Some(Apply(OrEmpty(FindGroup(pc, charset)), how, entry))
    ensures forall k :: k != charset ==> FindGroup(r, k) == FindGroup(pc, k)
  {
    var (pc1, i) := Slot(pc, charset, []);
    var g := Apply(pc1[i].1, how, entry);
    KeyedUpdate(pc, charset, [], g);
    pc1[i := (charset, g)]
  }

  /** `mfontset_modify_entry`, after loading the fontset if needed.  The
      spec is stored once on the spec list.  The entry, filed under its
      layouter (`nil` as `t`), goes into the group of the script and
      language (`nil` as `t`) when a script is given, into the group of
      the charset when one is given, and into the fallback group only
      when neither is.  Nothing else changes; the result is always 0. */
  function ModifyEntry(t: PropTables, fs: Fontset, script: Symbol, language: Symbol, charset: Symbol,
                       spec: MFont, layouter: Symbol, how: int): (r: (PropTables, Fontset, int))
    requires TablesOk(t) && FontsetOk(fs) && FontOk(t, spec)
    ensures r.2 == 0
    ensures FontsetReady(t, fs) ==> FontsetReady(r.0, r.1)
    ensures TablesOk(r.0) && Extends(t, r.0) && FontsetOk(r.1) && r.1.mdb.None? && r.1.contents.Some?
    ensures fs.mdb.None? ==> r.0 == t
    ensures r.1.name == fs.name && r.1.tick == fs.tick && r.1.refs == fs.refs
    ensures var (_, loaded) := EnsureLoaded(t, fs);
            var c0 := loaded.contents.value;
            var c := r.1.contents.value;
            var entry := (NilAsT(layouter), spec);
            var lang := NilAsT(language);
            && r.1.specs == Some(InternSpec(SpecsOf(loaded), spec))
            && (script != Nil ==> GroupAt(c.perScript, script, lang)
                                  == Some(Apply(OrEmpty(GroupAt(c0.perScript, script, lang)), how, entry)))
            && (forall s, l :: s != script || l != lang ==> GroupAt(c.perScript, s, l) == GroupAt(c0.perScript, s, l))
            && (charset != Nil ==> FindGroup(c.perCharset, charset)
                                   == Some(Apply(OrEmpty(FindGroup(c0.perCharset, charset)), how, entry)))
            && (forall k :: k != charset ==> FindGroup(c.perCharset, k) == FindGroup(c0.perCharset, k))
            && c.fallback == (if script == Nil && charset == Nil then Apply(c0.fallback, how, entry) else c0.fallback)
            && (script == Nil ==> c.perScript == c0.perScript)
            && (charset == Nil ==> c.perCharset == c0.perCharset)
  {
    var (t1, loaded) := EnsureLoaded(t, fs);
    var c0 := loaded.contents.value;
    var specs := InternSpec(SpecsOf(loaded), spec);
    assert FontsetReady(t, fs) ==> SpecsOk(t1, specs) by {
      if FontsetReady(t, fs) {
        FontTables.ExtendsKeepsFont(t, t1, spec);
        SpecsOkIntern(t1, SpecsOf(loaded), spec);
      }
    }
    var entry := (NilAsT(layouter), spec);
    var lang := NilAsT(language);
    var ps := if script != Nil then EditScript(c0.perScript, script, lang, how, entry) else c0.perScript;
    var pc := if charset != Nil then EditCharset(c0.perCharset, charset, how, entry) else c0.perCharset;
    var fb := if script == Nil && charset == Nil then Apply(c0.fallback, how, entry) else c0.fallback;
    var c := Contents(ps, pc, fb);
    ModifyKeepsShape(c0, SpecsOf(loaded), c, script, lang, charset, how, entry, specs);
    (t1, loaded.(contents := Some(c), specs := Some(specs)), 0)
  }

  lemma ModifyKeepsShape(c0: Contents, specs0: seq<MFont>, c: Contents, script: Symbol, lang: Symbol,
                         charset: Symbol, how: int, entry: (Symbol, MFont), specs: seq<MFont>)
    requires ContentsOk(c0, specs0) && specs == InternSpec(specs0, entry.1) && entry.0 != Nil && lang != Nil
    requires c.perScript == (if script != Nil then EditScript(c0.perScript, script, lang, how, entry) else c0.perScript)
    requires c.perCharset == (if charset != Nil then EditCharset(c0.perCharset, charset, how, entry) else c0.perCharset)
    requires c.fallback == (if script == Nil && charset == Nil then Apply(c0.fallback, how, entry) else c0.fallback)
    ensures ContentsOk(c, specs)
  {
    ContentsOkGrow(c0, specs0, specs);
    assert GroupOk([entry], specs);
    forall g: Group | GroupOk(g, specs) ensures GroupOk(Apply(g, how, entry), specs) {
      var a := Apply(g, how, entry);
      forall i | 0 <= i < |a| ensures a[i].0 != Nil && a[i].1 in specs {
        assert a[i] in a;
      }
    }
    ScriptShape(c0.perScript, c.perScript, script, lang, how, entry, specs);
    CharsetShape(c0.perCharset, c.perCharset, charset, how, entry, specs);
  }

  lemma ScriptShape(ps0: seq<(Symbol, PerLanguage)>, ps: seq<(Symbol, PerLanguage)>, script: Symbol, lang: Symbol,
                    how: int, entry: (Symbol, MFont), specs: seq<MFont>)
    requires lang != Nil
    requires forall i, j :: 0 <= i < |ps0| && 0 <= j < |ps0[i].1| ==> ps0[i].1[j].0 != Nil && GroupOk(ps0[i].1[j].1, specs)
    requires forall g: Group :: GroupOk(g, specs) ==> GroupOk(Apply(g, how, entry), specs)
    requires ps == (if script != Nil then EditScript(ps0, script, lang, how, entry) else ps0)
    ensures forall i, j :: 0 <= i < |ps| && 0 <= j < |ps[i].1| ==> ps[i].1[j].0 != Nil && GroupOk(ps[i].1[j].1, specs)
  {
    if script != Nil {
      var (ps1, i) := Slot(ps0, script, []);
      var (pl1, j) := Slot(ps1[i].1, lang, []);
      assert forall b :: 0 <= b < |ps1[i].1| ==> ps1[i].1[b].0 != Nil && GroupOk(ps1[i].1[b].1, specs) by {
        if FindKey(ps0, script).Some? { assert ps1[i] == ps0[i]; }
      }
      assert GroupOk(pl1[j].1, specs) by {
        if FindKey(ps1[i].1, lang).Some? { assert pl1[j] == ps1[i].1[j]; }
      }
      forall a, b | 0 <= a < |ps| && 0 <= b < |ps[a].1| ensures ps[a].1[b].0 != Nil && GroupOk(ps[a].1[b].1, specs) {
        if a != i {
          assert ps[a] == ps0[a];
        } else if b != j {
          assert ps[a].1[b] == ps1[i].1[b];
        }
      }
    }
  }

  lemma CharsetShape(pc0: seq<(Symbol, Group)>, pc: seq<(Symbol, Group)>, charset: Symbol,
                     how: int, entry: (Symbol, MFont), specs: seq<MFont>)
    requires forall i :: 0 <= i < |pc0| ==> GroupOk(pc0[i].1, specs)
    requires forall g: Group :: GroupOk(g, specs) ==> GroupOk(Apply(g, how, entry), specs)
    requires pc == (if charset != Nil then EditCharset(pc0, charset, how, entry) else pc0)
    ensures forall i :: 0 <= i < |pc| ==> GroupOk(pc[i].1, specs)
  {
    if charset != Nil {
      var (pc1, i) := Slot(pc0, charset, []);
      assert GroupOk(pc1[i].1, specs) by {
        if FindKey(pc0, charset).Some? { assert pc1[i] == pc0[i]; }
      }
      forall a | 0 <= a < |pc| ensures GroupOk(pc[a].1, specs) {
        if a != i { assert pc[a] == pc0[a]; }
      }
    }
  }

  // ---------------------------------------------------------------------
  // The registry of fontsets

  /** All fontsets by name, in creation order. */
  type FontsetList = seq<(Symbol, Fontset)>

  /** The database's entry for a fontset name, if there is one. */
  type DatabaseFind = Symbol -> Option<Database>

  const DefaultName: Symbol := "default"

  /** A freshly created fontset: with a database entry it waits to be
      loaded, without one it starts empty.  The registry holds one
      reference and the caller another. */
  function NewFontset(name: Symbol, find: DatabaseFind): (fs: Fontset)
    ensures FontsetOk(fs) && fs.name == name && fs.tick == 0 && fs.refs == 2 && fs.specs.None?
    ensures fs.mdb == find(name)
    ensures fs.contents == (if find(name).None? then Some(EmptyContents) else None)
  {
    Fontset(name, 0, find(name), if find(name).None? then Some(EmptyContents) else None, None, 2)
  }

  /** Each name appears at most once. */
  ghost predicate RegistryOk(reg: FontsetList)
  {
    forall i, j :: 0 <= i < j < |reg| ==> reg[i].0 != reg[j].0
  }

  /** `mfontset`: the fontset of that name (the default fontset when no
      name is given), created and registered on first request; either
      way the caller gets a new reference. */
  function GetFontset(reg: FontsetList, name: Option<Symbol>, find: DatabaseFind): (r: (FontsetList, Fontset))
    requires name.None? ==> FindKey(reg, DefaultName).Some?
    ensures var n := if name.Some? then name.value else DefaultName;
            var i := FindKey(reg, n);
            && (i.Some? ==> r == (reg[i.value := (n, reg[i.value].1.(refs := reg[i.value].1.refs + 1))],
                                  reg[i.value].1.(refs := reg[i.value].1.refs + 1)))
            && (i.None? ==> r == (reg + [(n, NewFontset(n, find))], NewFontset(n, find)))
    ensures RegistryOk(reg) ==> RegistryOk(r.0)
    ensures |r.0| >= |reg|
  {
    var n := if name.Some? then name.value else DefaultName;
    match FindKey(reg, n)
    case Some(i) =>
      var fs := reg[i].1.(refs := reg[i].1.refs + 1);
      (reg[i := (n, fs)], fs)
    case None =>
      var fs := NewFontset(n, find);
      (reg + [(n, fs)], fs)
  }

  /** Asking twice for a name gives the same fontset, created once. */
  lemma GetFontsetTwice(reg: FontsetList, name: Symbol, find: DatabaseFind)
    requires RegistryOk(reg)
    ensures var (reg1, fs1) := GetFontset(reg, Some(name), find);
            var (reg2, fs2) := GetFontset(reg1, Some(name), find);
            && |reg2| == |reg1| && fs2 == fs1.(refs := fs1.refs + 1)
            && FindKey(reg1, name).Some?
  {
    var (reg1, fs1) := GetFontset(reg, Some(name), find);
    if FindKey(reg, name).None? {
      assert reg1[|reg|] == (name, fs1);
      assert forall j :: 0 <= j < |reg| ==> reg1[j] == reg[j];
      assert FindKey(reg1, name) == Some(|reg|);
    } else {
      var i := FindKey(reg, name).value;
      assert forall j :: 0 <= j < |reg| && j != i ==> reg1[j] == reg[j];
      assert reg1[i].0 == name;
      assert forall j :: 0 <= j < i ==> reg1[j].0 != name;
      assert FindKey(reg1, name) == Some(i);
    }
  }

  /** `mfontset_copy` as written: no copy when the name is taken;
      otherwise a new fontset of that name with the original's contents
      and spec list, registered and referenced.  The original is not
      loaded first, and the copy gets no database entry. */
  function CopyFontsetAsWritten(reg: FontsetList, fs: Fontset, name: Symbol): (r: (FontsetList, Option<Fontset>))
    ensures FindKey(reg, name).Some? <==> r.1.None?
    ensures r.1.None? ==> r.0 == reg
    ensures r.1.Some? ==> r.0 == reg + [(name, r.1.value)]
                          && r.1.value == Fontset(name, 0, None, fs.contents, fs.specs, 2)
  {
    if FindKey(reg, name).Some? then (reg, None)
    else
      var copy := Fontset(name, 0, None, fs.contents, fs.specs, 2);
      (reg + [(name, copy)], Some(copy))
  }

  /** A fontset still waiting for its data copies to a fontset with
      neither contents nor a database entry to load them from: the data
      is lost, and the copy cannot be read. */
  lemma CopyOfUnloadedIsEmpty(reg: FontsetList, fs: Fontset, name: Symbol)
    requires FontsetOk(fs) && fs.contents.None? && FindKey(reg, name).None?
    ensures var (_, copy) := CopyFontsetAsWritten(reg, fs, name);
            copy.Some? && copy.value.mdb.None? && copy.value.contents.None? && !FontsetOk(copy.value)
  {
  }

  /** `mfontset_copy` with the original loaded first, as every other
      reader of a fontset does.  The loaded original is returned too. */
  function CopyFontset(t: PropTables, reg: FontsetList, fs: Fontset, name: Symbol)
    : (r: (PropTables, FontsetList, Fontset, Option<Fontset>))
    requires TablesOk(t) && FontsetOk(fs)
    ensures TablesOk(r.0) && Extends(t, r.0)
    ensures FindKey(reg, name).Some? <==> r.3.None?
    ensures r.3.None? ==> r == (t, reg, fs, None)
    ensures r.3.Some? ==> (r.0, r.2) == EnsureLoaded(t, fs)
                          && (r.1, r.3) == CopyFontsetAsWritten(reg, r.2, name)
  {
    if FindKey(reg, name).Some? then (t, reg, fs, None)
    else
      var (t1, loaded) := EnsureLoaded(t, fs);
      var (reg1, copy) := CopyFontsetAsWritten(reg, loaded, name);
      (t1, reg1, loaded, copy)
  }

  /** The copy holds what the original holds once loaded, and can be read
      and edited like any fontset. */
  lemma CopyKeepsContents(t: PropTables, reg: FontsetList, fs: Fontset, name: Symbol)
    requires TablesOk(t) && FontsetOk(fs) && FindKey(reg, name).None?
    ensures var (_, _, loaded, copy) := CopyFontset(t, reg, fs, name);
            && copy.Some? && copy.value.name == name && FontsetOk(copy.value)
            && copy.value.contents == loaded.contents && loaded.contents.Some?
            && copy.value.specs == loaded.specs
  {
  }

  /** `mfont__fontset_init`: register the default fontset; when the
      database has no entry for it, its fallback group gets a font of
      registry iso8859-1 and then one of registry iso10646-1, both with
      every other property unspecified. */
  function FontsetInit(t: PropTables, find: DatabaseFind): (r: (PropTables, FontsetList))
    requires TablesOk(t)
    ensures TablesOk(r.0) && Extends(t, r.0)
    ensures |r.1| == 1 && r.1[0].0 == DefaultName && r.1[0].1.name == DefaultName && r.1[0].1.refs == 2
    ensures find(DefaultName).Some? ==> r == (t, [(DefaultName, NewFontset(DefaultName, find))])
    ensures find(DefaultName).None? ==>
              var d := r.1[0].1;
              && d.contents.Some? && d.contents.value.perScript == [] && d.contents.value.perCharset == []
              && |d.contents.value.fallback| == 2
              && var (f1, f2) := (d.contents.value.fallback[0], d.contents.value.fallback[1]);
                 && f1.0 == T && f2.0 == T
                 && FontOk(r.0, f1.1) && Name(r.0, f1.1, Registry) == "iso8859-1"
                 && FontOk(r.0, f2.1) && Name(r.0, f2.1, Registry) == "iso10646-1"
                 && (forall k :: 0 <= k < NumProps && k != Registry ==> f1.1[k] == 0 && f2.1[k] == 0)
  {
    var (reg, d) := GetFontset([], Some(DefaultName), find);
    assert reg == [(DefaultName, NewFontset(DefaultName, find))];
    if d.mdb.Some? then (t, reg)
    else
      var (t1, f1, f2) := DefaultFallbackFonts(t);
      TwoFallbacks(t1, d, f1, f2);
      (t1, [(DefaultName, AddFallback(t1, AddFallback(t1, d, f1).1, f2).1)])
  }

  /** Two fallback fonts added to an empty fontset make up its whole
      fallback group, in the order they were added. */
  lemma TwoFallbacks(t: PropTables, d: Fontset, f1: MFont, f2: MFont)
    requires TablesOk(t) && FontsetOk(d) && d.mdb.None? && FontOk(t, f1) && FontOk(t, f2)
    requires d.contents == Some(EmptyContents)
    ensures var d1 := AddFallback(t, d, f1).1;
            var d2 := AddFallback(t, d1, f2).1;
            && d2.name == d.name && d2.refs == d.refs
            && d2.contents == Some(EmptyContents.(fallback := [(T, f1), (T, f2)]))
  {
    var d1 := AddFallback(t, d, f1).1;
    var d2 := AddFallback(t, d1, f2).1;
    assert d1.contents.value.fallback == [] + [(T, f1)] == [(T, f1)];
    assert d2.contents.value.fallback == [(T, f1)] + [(T, f2)] == [(T, f1), (T, f2)];
  }

  /** `mfontset_modify_entry` for the fallback group of a loaded fontset,
      appending the font with no layouter. */
  function AddFallback(t: PropTables, fs: Fontset, f: MFont): (r: (PropTables, Fontset))
    requires TablesOk(t) && FontsetOk(fs) && fs.mdb.None? && FontOk(t, f)
    ensures r.0 == t && FontsetOk(r.1) && r.1.mdb.None?
    ensures FontsetReady(t, fs) ==> FontsetReady(t, r.1)
    ensures r.1.name == fs.name && r.1.refs == fs.refs
    ensures r.1.contents == Some(fs.contents.value.(fallback := fs.contents.value.fallback + [(T, f)]))
  {
    var c := fs.contents.value;
    var r := fs.(contents := Some(c.(fallback := c.fallback + [(T, f)])),
                 specs := Some(InternSpec(SpecsOf(fs), f)));
    ModifyFallback(t, fs, f);
    (t, r)
  }

  /** Appending to the fallback group of a loaded fontset through
      `ModifyEntry` only adds the entry and interns its spec. */
  lemma ModifyFallback(t: PropTables, fs: Fontset, f: MFont)
    requires TablesOk(t) && FontsetOk(fs) && fs.mdb.None? && FontOk(t, f)
    ensures var c := fs.contents.value;
            ModifyEntry(t, fs, Nil, Nil, Nil, f, Nil, 1)
            == (t, fs.(contents := Some(c.(fallback := c.fallback + [(T, f)])),
                       specs := Some(InternSpec(SpecsOf(fs), f))), 0)
  {
  }

  /** The two fonts the default fontset falls back to: registry
      iso8859-1, then the same font with registry iso10646-1. */
  function DefaultFallbackFonts(t: PropTables): (r: (PropTables, MFont, MFont))
    requires TablesOk(t)
    ensures TablesOk(r.0) && Extends(t, r.0) && FontOk(r.0, r.1) && FontOk(r.0, r.2)
    ensures Name(r.0, r.1, Registry) == "iso8859-1" && Name(r.0, r.2, Registry) == "iso10646-1"
    ensures forall k :: 0 <= k < NumProps && k != Registry ==> r.1[k] == 0 && r.2[k] == 0
  {
    var (t1, f1) := SetProperty(t, ZeroFont, Registry, "iso8859-1");
    var (t2, f2) := SetProperty(t1, f1, Registry, "iso10646-1");
    FontTables.ExtendsTrans(t, t1, t2);
    FontOkIntro(t1, f1, NumSymbolic);
    FontTables.ExtendsKeepsFont(t1, t2, f1);
    FontOkIntro(t2, f2, NumSymbolic);
    (t2, f1, f2)
  }
}
