/** The fontset loader of fontset.c as written, on plists.

    The loader looks a repeated charset, script or language up with
    `mplist_find_by_key`, which yields the plist NODE holding the key, and
    then adds to that node.  Adding to a node appends at the end of the
    list the node belongs to, so the second mention of a charset puts its
    (layouter, spec) pairs at the end of the per-charset list instead of
    into the charset's group, and the same happens to a repeated language
    in the list of languages (or, for a script mentioned before, in the
    per-script list).  This module keeps the loaded data as the plists the
    library builds, shows where the two differ, and shows that they agree
    when no key repeats.  The rest of the model loads fontsets with the
    merging loader of module Fontsets. */
module FontsetPlists {

  import opened Plist
  import opened FontProps
  import opened Fontsets

  /** A plist value as the loader stores it: a font spec, or a nested plist. */
  datatype PVal = Spec(font: MFont) | Sub(pairs: seq<(Symbol, PVal)>)

  type RawList = seq<(Symbol, PVal)>

  /** The loaded data as plists. */
  datatype RawContents = RawContents(perScript: RawList, perCharset: RawList, fallback: Group)

  /** A font group as the plist of its (layouter, spec) pairs. */
  function Raw(g: Group): RawList
  {
    seq(|g|, i requires 0 <= i < |g| => (g[i].0, Spec(g[i].1)))
  }

  /** The language items of one script entry, as written.  Each language is
      looked up from node `from` of `l` onward.  A language not found gets
      a fresh group, added with its key at the end of `l`; for a language
      found, the group's pairs themselves are added at the end of `l`.
      A malformed item ends the entry. */
  function LanguagesAsWritten(t: PropTables, l: RawList, from: nat, specs: seq<MFont>, elems: seq<Elem>)
    : (r: (PropTables, RawList, seq<MFont>))
    requires TablesOk(t) && from <= |l|
    ensures TablesOk(r.0) && Extends(t, r.0) && l <= r.1
    ensures |elems| == 0 || !LanguageItemOk(elems[0]) ==> r == (t, l, specs)
    decreases |elems|
  {
    if |elems| == 0 || !LanguageItemOk(elems[0]) then (t, l, specs)
    else
      var lang := ItemLang(elems[0]);
      var (t1, g, s1) := LoadFontGroup(t, [], specs, elems[0].items[1..]);
      var l1 := if FindKey(l[from..], lang).Some? then l + Raw(g) else l + [(lang, Sub(Raw(g)))];
      LanguagesAsWritten(t1, l1, from, s1, elems[1..])
  }

  /** One element of the fontset data, as written.  The fallback case is
      the same as in the merging loader.  A charset entry for a charset not
      yet present adds the charset with its new group at the end of the
      per-charset list; for a charset present, it adds the group's pairs at
      the end of the per-charset list.  A script entry for a new script adds
      the script with a fresh language list; for a script present, its
      languages are looked up and added from the script's node onward in
      the per-script list. */
  function LoadEntryAsWritten(t: PropTables, c: RawContents, specs: seq<MFont>, e: Elem)
    : (r: (PropTables, RawContents, seq<MFont>))
    requires TablesOk(t)
    ensures TablesOk(r.0) && Extends(t, r.0)
    ensures c.perCharset <= r.1.perCharset && c.perScript <= r.1.perScript
    ensures !EntryOk(e) ==> r == (t, c, specs)
  {
    if !EntryOk(e) then (t, c, specs)
    else
      var script := e.items[0].name;
      var rest := e.items[1..];
      if script == Nil then
        var (t1, g, s1) := LoadFontGroup(t, c.fallback, specs, rest);
        (t1, c.(fallback := g), s1)
      else if CharsetForm(e) then
        var (t1, g, s1) := LoadFontGroup(t, [], specs, rest);
        if FindKey(c.perCharset, script).Some? then
          (t1, c.(perCharset := c.perCharset + Raw(g)), s1)
        else
          (t1, c.(perCharset := c.perCharset + [(script, Sub(Raw(g)))]), s1)
      else
        match FindKey(c.perScript, script)
        case None =>
          var (t1, l, s1) := LanguagesAsWritten(t, [], 0, specs, rest);
          (t1, c.(perScript := c.perScript + [(script, Sub(l))]), s1)
        case Some(i) =>
          var (t1, l, s1) := LanguagesAsWritten(t, c.perScript, i, specs, rest);
          (t1, c.(perScript := l), s1)
  }

  /** A charset entry naming a charset already present leaves that
      charset's group as it was and puts the new fonts, as bare specs, at
      the end of the per-charset list, where a charset and its group
      belong.  The merging loader (Fontsets.LoadEntry) adds them to the
      charset's group instead. */
  lemma RepeatedCharsetAsWritten(t: PropTables, c: RawContents, specs: seq<MFont>, e: Elem)
    requires TablesOk(t) && EntryOk(e) && e.items[0].name != Nil && CharsetForm(e)
    requires FindKey(c.perCharset, e.items[0].name).Some?
    requires CountOk(e.items[1..], GroupItemOk) > 0
    ensures var r := LoadEntryAsWritten(t, c, specs, e);
            var i := FindKey(c.perCharset, e.items[0].name).value;
            && FindKey(r.1.perCharset, e.items[0].name) == Some(i)
            && r.1.perCharset[i] == c.perCharset[i]
            && |r.1.perCharset| > |c.perCharset|
            && r.1.perCharset[|c.perCharset|].1.Spec?
  {
    var name := e.items[0].name;
    var (t1, g, s1) := LoadFontGroup(t, [], specs, e.items[1..]);
    var l := c.perCharset + Raw(g);
    assert LoadEntryAsWritten(t, c, specs, e).1.perCharset == l;
    FindKeyAppend(c.perCharset, Raw(g), name);
    assert l[|c.perCharset|] == Raw(g)[0];
  }

  /** Two items for the same language in the entry of a new script: the
      second item's fonts are not added to the language's group but end up
      as bare specs in the script's list of languages.  The merging loader
      (Fontsets.LoadLanguages) files both items' fonts under the language. */
  lemma RepeatedLanguageAsWritten(t: PropTables, c: RawContents, specs: seq<MFont>, e: Elem)
    requires TablesOk(t) && EntryOk(e) && e.items[0].name != Nil && !CharsetForm(e)
    requires FindKey(c.perScript, e.items[0].name).None?
    requires |e.items| >= 3 && LanguageItemOk(e.items[1]) && LanguageItemOk(e.items[2])
    requires ItemLang(e.items[1]) == ItemLang(e.items[2])
    requires CountOk(e.items[2].items[1..], GroupItemOk) > 0
    ensures var r := LoadEntryAsWritten(t, c, specs, e);
            && |r.1.perScript| == |c.perScript| + 1
            && r.1.perScript[|c.perScript|].1.Sub?
            && var langs := r.1.perScript[|c.perScript|].1.pairs;
               && |langs| >= 2
               && langs[0].0 == ItemLang(e.items[1]) && langs[0].1.Sub?
               && langs[1].1.Spec?
  {
    var rest := e.items[1..];
    var lang := ItemLang(rest[0]);
    var (t1, g1, s1) := LoadFontGroup(t, [], specs, rest[0].items[1..]);
    var l1 := [(lang, Sub(Raw(g1)))];
    var empty: RawList := [];
    assert FindKey(empty[0..], lang).None?;
    assert LanguagesAsWritten(t, [], 0, specs, rest) == LanguagesAsWritten(t1, l1, 0, s1, rest[1..]);
    var (t2, g2, s2) := LoadFontGroup(t1, [], s1, rest[1].items[1..]);
    assert FindKey(l1[0..], lang) == Some(0);
    var l2 := l1 + Raw(g2);
    assert LanguagesAsWritten(t1, l1, 0, s1, rest[1..]) == LanguagesAsWritten(t2, l2, 0, s2, rest[2..]);
    var r := LanguagesAsWritten(t2, l2, 0, s2, rest[2..]);
    assert l2 <= r.1;
    assert r.1[1] == l2[1] == Raw(g2)[0];
  }

  /** A script entry for a script already present: a language not yet
      seen after the script's node is added, with its group, at the end of
      the per-script list, as if it were a script, while the script's own
      list of languages stays as it was.  The merging loader adds it to the
      script's list of languages. */
  lemma RepeatedScriptAsWritten(t: PropTables, c: RawContents, specs: seq<MFont>, e: Elem)
    requires TablesOk(t) && EntryOk(e) && e.items[0].name != Nil && !CharsetForm(e)
    requires FindKey(c.perScript, e.items[0].name).Some?
    requires LanguageItemOk(e.items[1])
    requires FindKey(c.perScript[FindKey(c.perScript, e.items[0].name).value..], ItemLang(e.items[1])).None?
    ensures var r := LoadEntryAsWritten(t, c, specs, e);
            var i := FindKey(c.perScript, e.items[0].name).value;
            && r.1.perScript[i] == c.perScript[i]
            && |r.1.perScript| > |c.perScript|
            && r.1.perScript[|c.perScript|].0 == ItemLang(e.items[1])
  {
    var i := FindKey(c.perScript, e.items[0].name).value;
    var rest := e.items[1..];
    var (t1, g, s1) := LoadFontGroup(t, [], specs, rest[0].items[1..]);
    var l1 := c.perScript + [(ItemLang(rest[0]), Sub(Raw(g)))];
    assert LanguagesAsWritten(t, c.perScript, i, specs, rest) == LanguagesAsWritten(t1, l1, i, s1, rest[1..]);
    var r := LanguagesAsWritten(t1, l1, i, s1, rest[1..]);
    assert l1 <= r.1;
    assert r.1[|c.perScript|] == l1[|c.perScript|];
  }

  /** The raw form of a per-language list. */
  function RawLanguages(pl: PerLanguage): RawList
  {
    seq(|pl|, i requires 0 <= i < |pl| => (pl[i].0, Sub(Raw(pl[i].1))))
  }

  /** When a charset is mentioned for the first time, the as-written loader
      files exactly the group the merging loader builds for it. */
  lemma FreshCharsetAgrees(t: PropTables, c: RawContents, cc: Contents, specs: seq<MFont>, e: Elem)
    requires TablesOk(t) && ContentsOk(cc, specs)
    requires EntryOk(e) && e.items[0].name != Nil && CharsetForm(e)
    requires FindKey(c.perCharset, e.items[0].name).None? && FindKey(cc.perCharset, e.items[0].name).None?
    ensures var r := LoadEntryAsWritten(t, c, specs, e);
            var rr := LoadEntry(t, cc, specs, e);
            && r.0 == rr.0 && r.2 == rr.2
            && r.1.perCharset
               == c.perCharset + [(e.items[0].name, Sub(Raw(FindGroup(rr.1.perCharset, e.items[0].name).value)))]
  {
    var name := e.items[0].name;
    var (pc, i) := Slot(cc.perCharset, name, []);
    assert pc[i].1 == [];
    KeyedUpdate(cc.perCharset, name, [], LoadFontGroup(t, [], specs, e.items[1..]).1);
  }

  /** When a script is mentioned for the first time and its items name
      each language once, the as-written loader builds the list of
      languages the merging loader builds. */
  lemma FreshLanguagesAgree(t: PropTables, specs: seq<MFont>, elems: seq<Elem>)
    requires TablesOk(t)
    requires forall a, b :: 0 <= a < b < |LoadedItems(elems)| ==>
               ItemLang(LoadedItems(elems)[a]) != ItemLang(LoadedItems(elems)[b])
    ensures var r := LanguagesAsWritten(t, [], 0, specs, elems);
            var rr := LoadLanguages(t, [], specs, elems);
            r == (rr.0, RawLanguages(rr.1), rr.2)
  {
    FreshLanguagesFrom(t, [], specs, elems);
  }

  lemma {:induction false} FreshLanguagesFrom(t: PropTables, pl: PerLanguage, specs: seq<MFont>, elems: seq<Elem>)
    requires TablesOk(t)
    requires forall a, b :: 0 <= a < b < |LoadedItems(elems)| ==>
               ItemLang(LoadedItems(elems)[a]) != ItemLang(LoadedItems(elems)[b])
    requires forall a :: 0 <= a < |LoadedItems(elems)| ==> FindKey(pl, ItemLang(LoadedItems(elems)[a])).None?
    ensures var r := LanguagesAsWritten(t, RawLanguages(pl), 0, specs, elems);
            var rr := LoadLanguages(t, pl, specs, elems);
            r == (rr.0, RawLanguages(rr.1), rr.2)
    decreases |elems|
  {
    if |elems| > 0 && LanguageItemOk(elems[0]) {
      var items := LoadedItems(elems);
      assert items == [elems[0]] + LoadedItems(elems[1..]);
      var lang := ItemLang(elems[0]);
      assert FindKey(pl, lang).None? by { assert items[0] == elems[0]; }
      RawKeys(pl, lang);
      var (t1, g, s1) := LoadFontGroup(t, [], specs, elems[0].items[1..]);
      var pl1 := pl + [(lang, g)];
      assert Slot(pl, lang, []) == (pl + [(lang, [])], |pl|);
      assert (pl + [(lang, [])])[|pl| := (lang, g)] == pl1;
      assert RawLanguages(pl) + [(lang, Sub(Raw(g)))] == RawLanguages(pl1);
      assert RawLanguages(pl)[0..] == RawLanguages(pl);
      forall a | 0 <= a < |LoadedItems(elems[1..])|
        ensures FindKey(pl1, ItemLang(LoadedItems(elems[1..])[a])).None?
      {
        assert LoadedItems(elems[1..])[a] == items[a + 1];
        FindKeyAppend(pl, [(lang, g)], ItemLang(items[a + 1]));
      }
      FreshLanguagesFrom(t1, pl1, s1, elems[1..]);
    }
  }

  /** A raw per-language list has the keys of the list it comes from. */
  lemma RawKeys(pl: PerLanguage, k: Symbol)
    ensures FindKey(RawLanguages(pl), k).None? <==> FindKey(pl, k).None?
  {
    var rl := RawLanguages(pl);
    assert forall i :: 0 <= i < |pl| ==> rl[i].0 == pl[i].0;
  }

  /** The first `k` of `a + b` is the first of `a`, or else the first of `b`
      shifted past `a`. */
  lemma {:induction false} FindKeyAppend<V>(a: seq<(Symbol, V)>, b: seq<(Symbol, V)>, k: Symbol)
    ensures FindKey(a, k).Some? ==> FindKey(a + b, k) == FindKey(a, k)
    ensures FindKey(a, k).None? && FindKey(b, k).None? ==> FindKey(a + b, k).None?
    ensures FindKey(a, k).None? && FindKey(b, k).Some? ==> FindKey(a + b, k) == Some(|a| + FindKey(b, k).value)
  {
    if |a| == 0 {
      assert a + b == b;
    } else if a[0].0 != k {
      assert (a + b)[0] == a[0] && (a + b)[1..] == a[1..] + b;
      FindKeyAppend(a[1..], b, k);
    }
  }
}
