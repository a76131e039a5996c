/** The language and script tables (language.c).  Each table is a list of
    records loaded once from the database; a record is a list headed by a
    symbol:

      language: (ISO639-2 ISO639-1-or-nil ENGLISH-NAME NATIVE-NAME ...)
      script:   (NAME (LANGUAGE ...) (CHAR ...) OTF-TAG ...)

    The database is a parameter: `None` when it has no entry or the entry
    does not load. */
module Languages {

  import opened Plist

  /** A record of a table: the items of one list. */
  type Record = seq<Elem>

  /** A list the loader keeps: a list whose first item is a symbol. */
  predicate RecordOk(e: Elem)
  {
    e.List? && |e.items| >= 1 && e.items[0].Sym?
  }

  /** Every record of a loaded table is headed by a symbol. */
  ghost predicate TableOk(table: seq<Record>)
  {
    forall i :: 0 <= i < |table| ==> |table[i]| >= 1 && table[i][0].Sym?
  }

  // ---------------------------------------------------------------------
  // load_lang_script_list

  /** The loader's check of the loaded data: every element that is not a
      list headed by a symbol is dropped, the others are kept in order. */
  function FilterRecords(data: seq<Elem>): (r: seq<Record>)
    ensures TableOk(r)
    ensures |r| == CountOk(data, RecordOk)
    ensures forall i :: 0 <= i < |r| ==> List(r[i]) in data
    decreases |data|
  {
    if |data| == 0 then []
    else
      var init := FilterRecords(data[..|data| - 1]);
      var last := data[|data| - 1];
      assert forall i :: 0 <= i < |init| ==> List(init[i]) in data by {
        forall i | 0 <= i < |init| ensures List(init[i]) in data {
          assert List(init[i]) in data[..|data| - 1];
        }
      }
      if RecordOk(last) then init + [last.items] else init
  }

  /** The filter splits over concatenation: what is kept of each part is
      kept, in order. */
  lemma {:induction false} FilterAppend(a: seq<Elem>, b: seq<Elem>)
    ensures FilterRecords(a + b) == FilterRecords(a) + FilterRecords(b)
    decreases |b|
  {
    if |b| == 0 {
      assert a + b == a;
    } else {
      var b0 := b[..|b| - 1];
      assert (a + b)[..|a + b| - 1] == a + b0;
      assert (a + b)[|a + b| - 1] == b[|b| - 1];
      FilterAppend(a, b0);
    }
  }

  /** Data made only of well-formed records loads whole. */
  lemma {:induction false} FilterKeepsGood(data: seq<Elem>)
    requires forall i :: 0 <= i < |data| ==> RecordOk(data[i])
    ensures |FilterRecords(data)| == |data|
    ensures forall i :: 0 <= i < |data| ==> List(FilterRecords(data)[i]) == data[i]
    decreases |data|
  {
    if |data| > 0 {
      var init := data[..|data| - 1];
      FilterKeepsGood(init);
    }
  }

  /** The loader: `None` when the database has no entry or it does not
      load. */
  function LoadTable(db: Option<seq<Elem>>): (r: Option<seq<Record>>)
    ensures r.Some? <==> db.Some?
    ensures r.Some? ==> r.value == FilterRecords(db.value)
  {
    if db.None? then None else Some(FilterRecords(db.value))
  }

  /** The module's state: each table once loaded (`Some([])` after a load
      that failed), and the cache of `mscript__from_otf_tag`. */
  datatype LangState = LangState(
    languages: Option<seq<Record>>, scripts: Option<seq<Record>>,
    lastOtfTag: Symbol, lastScript: Symbol)

  /** `mlang__init`: nothing loaded yet. */
  const InitialState := LangState(None, None, Nil, Nil)

  ghost predicate LangStateOk(st: LangState)
  {
    && (st.languages.Some? ==> TableOk(st.languages.value))
    && (st.scripts.Some? ==> TableOk(st.scripts.value))
  }

  /** `init_language_list` when the table is not loaded yet: a load that
      fails leaves an empty table and reports failure (false). */
  function EnsureLanguages(st: LangState, db: Option<seq<Elem>>): (r: (LangState, bool))
    requires LangStateOk(st)
    ensures LangStateOk(r.0) && r.0.languages.Some? && r.0.scripts == st.scripts
    ensures r.0.lastOtfTag == st.lastOtfTag && r.0.lastScript == st.lastScript
    ensures st.languages.Some? ==> r == (st, true)
    ensures st.languages.None? ==> (r.1 <==> db.Some?)
    ensures st.languages.None? && db.Some? ==> r.0.languages.value == FilterRecords(db.value)
    ensures st.languages.None? && db.None? ==> r.0.languages.value == []
  {
    if st.languages.Some? then (st, true)
    else match LoadTable(db)
      case None => (st.(languages := Some([])), false)
      case Some(t) => (st.(languages := Some(t)), true)
  }

  /** `init_script_list`, likewise for the script table. */
  function EnsureScripts(st: LangState, db: Option<seq<Elem>>): (r: (LangState, bool))
    requires LangStateOk(st)
    ensures LangStateOk(r.0) && r.0.scripts.Some? && r.0.languages == st.languages
    ensures r.0.lastOtfTag == st.lastOtfTag && r.0.lastScript == st.lastScript
    ensures st.scripts.Some? ==> r == (st, true)
    ensures st.scripts.None? ==> (r.1 <==> db.Some?)
    ensures st.scripts.None? && db.Some? ==> r.0.scripts.value == FilterRecords(db.value)
    ensures st.scripts.None? && db.None? ==> r.0.scripts.value == []
  {
    if st.scripts.Some? then (st, true)
    else match LoadTable(db)
      case None => (st.(scripts := Some([])), false)
      case Some(t) => (st.(scripts := Some(t)), true)
  }

  // ---------------------------------------------------------------------
  // mlanguage__info, mlanguage_code

  /** A language record names `language` in one of three ways: by its
      first symbol, by its second symbol, or by a third item that is text
      spelling the language's name. */
  predicate Names(rec: Record, language: Symbol)
  {
    || (|rec| >= 1 && rec[0] == Sym(language))
    || (|rec| >= 2 && rec[1] == Sym(language))
    || (|rec| >= 3 && rec[2] == Text(language))
  }

  /** The three tests of `mlanguage__info` on one record, each reached only
      when the record is long enough. */
  function MatchRecord(rec: Record, language: Symbol): (r: bool)
    requires |rec| >= 1 && rec[0].Sym?
    ensures r <==> Names(rec, language)
  {
    if rec[0].name == language then true
    else if |rec| == 1 then false
    else if rec[1].Sym? && rec[1].name == language then true
    else if |rec| == 2 then false
    else rec[2].Text? && rec[2].bytes == language
  }

  /** Position of the first record of `table` from `i` on that names
      `language`. */
  function FindLanguage(table: seq<Record>, language: Symbol, i: nat): (r: Option<nat>)
    requires TableOk(table) && i <= |table|
    ensures r.Some? ==> i <= r.value < |table| && Names(table[r.value], language)
    ensures r.Some? ==> forall j :: i <= j < r.value ==> !Names(table[j], language)
    ensures r.None? ==> forall j :: i <= j < |table| ==> !Names(table[j], language)
    decreases |table| - i
  {
    if i == |table| then None
    else if MatchRecord(table[i], language) then Some(i)
    else FindLanguage(table, language, i + 1)
  }

  /** `mlanguage__info`: the first record naming the language. */
  function LanguageInfo(table: seq<Record>, language: Symbol): (r: Option<Record>)
    requires TableOk(table)
    ensures r.None? <==> forall j :: 0 <= j < |table| ==> !Names(table[j], language)
    ensures r.Some? ==> exists j :: 0 <= j < |table| && table[j] == r.value && Names(table[j], language)
                                    && forall k :: 0 <= k < j ==> !Names(table[k], language)
  {
    var i := FindLanguage(table, language, 0);
    if i.Some? then Some(table[i.value]) else None
  }

  /** Every language the table lists is found: by its own record, or by
      an earlier record that also names it. */
  lemma ListedLanguageFound(table: seq<Record>, j: nat)
    requires TableOk(table) && j < |table|
    ensures LanguageInfo(table, table[j][0].name).Some?
  {
    assert Names(table[j], table[j][0].name);
  }

  /** `mlanguage__info (Mnil)` finds the first language written without a
      two-letter code: its `nil` second item matches. */
  lemma NilFindsLanguageWithoutShortCode(table: seq<Record>, j: nat)
    requires TableOk(table) && j < |table| && |table[j]| >= 2 && table[j][1] == Sym(Nil)
    ensures LanguageInfo(table, Nil).Some?
  {
    assert Names(table[j], Nil);
  }

  /** `mlanguage_code`: `nil` for an unknown language; the three-letter
      code (the record's first symbol) when `len` is 3; otherwise the
      two-letter code (the second item) when it is a symbol other than
      `nil`, failing which the three-letter code for `len` 0 and `nil` for
      any other length. */
  function LanguageCode(table: seq<Record>, language: Symbol, len: int): (r: Symbol)
    requires TableOk(table)
    ensures var info := LanguageInfo(table, language);
            && (info.None? ==> r == Nil)
            && (info.Some? && len == 3 ==> r == info.value[0].name)
            && ((info.Some? && len != 3 && |info.value| >= 2 && info.value[1].Sym? && info.value[1].name != Nil)
                ==> r == info.value[1].name)
            && ((info.Some? && len != 3 && !(|info.value| >= 2 && info.value[1].Sym? && info.value[1].name != Nil))
                ==> r == (if len == 0 then info.value[0].name else Nil))
  {
    match LanguageInfo(table, language)
    case None => Nil
    case Some(rec) =>
      assert |rec| >= 1 && rec[0].Sym?;
      var code := rec[0].name;
      if len == 3 then code
      else if |rec| >= 2 && rec[1].Sym? && rec[1].name != Nil then rec[1].name
      else if len == 0 then code
      else Nil
  }

  /** Length 0 asks for the two-letter code and falls back to the
      three-letter one; any length but 0 and 3 behaves as 2. */
  lemma CodeLengths(table: seq<Record>, language: Symbol, len: int)
    requires TableOk(table) && len != 0 && len != 3
    ensures LanguageCode(table, language, len) == LanguageCode(table, language, 2)
    ensures LanguageCode(table, language, 0)
            == if LanguageCode(table, language, 2) != Nil then LanguageCode(table, language, 2)
               else LanguageCode(table, language, 3)
  {
    var info := LanguageInfo(table, language);
    if info.Some? {
      var j :| 0 <= j < |table| && table[j] == info.value;
      assert |info.value| >= 1 && info.value[0].Sym?;
    }
  }

  /** A language the table lists by its three-letter code and that no
      earlier record names gives that code back. */
  lemma CodeOfListedLanguage(table: seq<Record>, j: nat)
    requires TableOk(table) && j < |table|
    requires forall k :: 0 <= k < j ==> !Names(table[k], table[j][0].name)
    ensures LanguageCode(table, table[j][0].name, 3) == table[j][0].name
  {
    var language := table[j][0].name;
    assert Names(table[j], language);
    var info := LanguageInfo(table, language);
    var i :| 0 <= i < |table| && table[i] == info.value && Names(table[i], language)
             && forall k :: 0 <= k < i ==> !Names(table[k], language);
    assert i == j;
  }

  // ---------------------------------------------------------------------
  // mscript__info and the positional accessors

  /** Position of the first script record named `script`. */
  function FindScript(table: seq<Record>, script: Symbol, i: nat): (r: Option<nat>)
    requires TableOk(table) && i <= |table|
    ensures r.Some? ==> i <= r.value < |table| && table[r.value][0] == Sym(script)
    ensures r.Some? ==> forall j :: i <= j < r.value ==> table[j][0] != Sym(script)
    ensures r.None? ==> forall j :: i <= j < |table| ==> table[j][0] != Sym(script)
    decreases |table| - i
  {
    if i == |table| then None
    else if table[i][0].name == script then Some(i)
    else FindScript(table, script, i + 1)
  }

  /** `mscript__info`: the first record whose name is `script`. */
  function ScriptInfo(table: seq<Record>, script: Symbol): (r: Option<Record>)
    requires TableOk(table)
    ensures r.None? <==> forall j :: 0 <= j < |table| ==> table[j][0] != Sym(script)
    ensures r.Some? ==> |r.value| >= 1 && r.value[0] == Sym(script)
    ensures r.Some? ==> exists j :: 0 <= j < |table| && table[j] == r.value
                                    && forall k :: 0 <= k < j ==> table[k][0] != Sym(script)
  {
    var i := FindScript(table, script, 0);
    if i.Some? then Some(table[i.value]) else None
  }

  /** `mscript_language_list`: the script's second item, when it is a
      list. */
  function ScriptLanguageList(table: seq<Record>, script: Symbol): (r: Option<seq<Elem>>)
    requires TableOk(table)
    ensures r.Some? <==> (ScriptInfo(table, script).Some? && |ScriptInfo(table, script).value| >= 2
                          && ScriptInfo(table, script).value[1].List?)
    ensures r.Some? ==> List(r.value) == ScriptInfo(table, script).value[1]
  {
    match ScriptInfo(table, script)
    case None => None
    case Some(rec) => if |rec| >= 2 && rec[1].List? then Some(rec[1].items) else None
  }

  /** `mscript__char_list`: the script's third item, when it is a list. */
  function CharList(table: seq<Record>, script: Symbol): (r: Option<seq<Elem>>)
    requires TableOk(table)
    ensures r.Some? <==> (ScriptInfo(table, script).Some? && |ScriptInfo(table, script).value| >= 3
                          && ScriptInfo(table, script).value[2].List?)
    ensures r.Some? ==> List(r.value) == ScriptInfo(table, script).value[2]
  {
    match ScriptInfo(table, script)
    case None => None
    case Some(rec) => if |rec| >= 3 && rec[2].List? then Some(rec[2].items) else None
  }

  /** `mscript__otf_tag`: the script's fourth item, when it is a symbol;
      `None` stands for the null symbol the source returns otherwise. */
  function OtfTag(table: seq<Record>, script: Symbol): (r: Option<Symbol>)
    requires TableOk(table)
    ensures r.Some? <==> (ScriptInfo(table, script).Some? && |ScriptInfo(table, script).value| >= 4
                          && ScriptInfo(table, script).value[3].Sym?)
    ensures r.Some? ==> Sym(r.value) == ScriptInfo(table, script).value[3]
  {
    match ScriptInfo(table, script)
    case None => None
    case Some(rec) => if |rec| >= 4 && rec[3].Sym? then Some(rec[3].name) else None
  }

  // ---------------------------------------------------------------------
  // mscript__from_otf_tag

  /** A script record whose fourth item is the symbol `tag`. */
  predicate HasOtfTag(rec: Record, tag: Symbol)
  {
    |rec| >= 4 && rec[3] == Sym(tag)
  }

  /** Position of the first script record from `i` on tagged `tag`. */
  function FindOtfTag(table: seq<Record>, tag: Symbol, i: nat): (r: Option<nat>)
    requires i <= |table|
    ensures r.Some? ==> i <= r.value < |table| && HasOtfTag(table[r.value], tag)
    ensures r.Some? ==> forall j :: i <= j < r.value ==> !HasOtfTag(table[j], tag)
    ensures r.None? ==> forall j :: i <= j < |table| ==> !HasOtfTag(table[j], tag)
    decreases |table| - i
  {
    if i == |table| then None
    else if |table[i]| >= 4 && table[i][3].Sym? && table[i][3].name == tag then Some(i)
    else FindOtfTag(table, tag, i + 1)
  }

  /** The name of the first script tagged `tag`, or `nil`. */
  function ScriptOfTag(table: seq<Record>, tag: Symbol): (r: Symbol)
    requires TableOk(table)
    ensures FindOtfTag(table, tag, 0).None? ==> r == Nil
    ensures FindOtfTag(table, tag, 0).Some? ==> Sym(r) == table[FindOtfTag(table, tag, 0).value][0]
  {
    match FindOtfTag(table, tag, 0)
    case None => Nil
    case Some(i) => table[i][0].name
  }

  /** `mscript__from_otf_tag`.  The first call loads the script table and
      clears the cache (a failed load answers `nil`).  A tag equal to the
      last one asked for gets the cached answer without a scan; any other
      tag is looked up and becomes the cached one. */
  function FromOtfTag(st: LangState, db: Option<seq<Elem>>, tag: Symbol): (r: (LangState, Symbol))
    requires LangStateOk(st)
    ensures LangStateOk(r.0) && r.0.scripts.Some? && r.0.languages == st.languages
    ensures var (st1, ok) := EnsureScripts(st, db);
            var unloaded := st.scripts.None?;
            && (unloaded && !ok ==> r == (st1.(lastOtfTag := Nil, lastScript := Nil), Nil))
            && (!(unloaded && !ok) ==>
                  var last := if unloaded then Nil else st.lastOtfTag;
                  var cached := if unloaded then Nil else st.lastScript;
                  && (tag == last ==> r.1 == cached && r.0 == st1.(lastOtfTag := last, lastScript := cached))
                  && (tag != last ==> r.1 == ScriptOfTag(st1.scripts.value, tag)
                                      && r.0 == st1.(lastOtfTag := tag, lastScript := r.1)))
  {
    var unloaded := st.scripts.None?;
    var st0 := if unloaded then st.(lastOtfTag := Nil, lastScript := Nil) else st;
    var (st1, ok) := EnsureScripts(st0, db);
    if unloaded && !ok then (st1, Nil)
    else if tag == st1.lastOtfTag then (st1, st1.lastScript)
    else
      var script := ScriptOfTag(st1.scripts.value, tag);
      (st1.(lastOtfTag := tag, lastScript := script), script)
  }

  /** The cache stays honest: once the table is loaded, the cached answer
      is always what a scan for the cached tag gives. */
  ghost predicate CacheOk(st: LangState)
  {
    st.scripts.Some? && TableOk(st.scripts.value) && st.lastOtfTag != Nil
    ==> st.lastScript == ScriptOfTag(st.scripts.value, st.lastOtfTag)
  }

  /** Asking for any tag but `nil` answers what a scan of the table
      gives, whether or not it came from the cache, and keeps the cache
      honest. */
  lemma FromOtfTagIsScan(st: LangState, db: Option<seq<Elem>>, tag: Symbol)
    requires LangStateOk(st) && CacheOk(st) && tag != Nil
    ensures var r := FromOtfTag(st, db, tag);
            r.1 == ScriptOfTag(r.0.scripts.value, tag) && CacheOk(r.0)
  {
  }

  /** Asking twice in a row for the same tag gives the same answer; once
      the tag is the cached one, the second call changes nothing. */
  lemma FromOtfTagTwice(st: LangState, db: Option<seq<Elem>>, tag: Symbol)
    requires LangStateOk(st)
    ensures var r1 := FromOtfTag(st, db, tag);
            var r2 := FromOtfTag(r1.0, db, tag);
            r2.1 == r1.1 && (r1.0.lastOtfTag == tag ==> r2.0 == r1.0)
  {
  }

  /** The scan and `mscript__otf_tag` agree: a script found for a tag has
      that tag, as long as no earlier record carries the same name. */
  lemma TagRoundTrip(table: seq<Record>, tag: Symbol)
    requires TableOk(table) && FindOtfTag(table, tag, 0).Some?
    requires var i := FindOtfTag(table, tag, 0).value;
             forall k :: 0 <= k < i ==> table[k][0] != table[i][0]
    ensures OtfTag(table, ScriptOfTag(table, tag)) == Some(tag)
  {
    var i := FindOtfTag(table, tag, 0).value;
    var script := ScriptOfTag(table, tag);
    var info := ScriptInfo(table, script);
    var j :| 0 <= j < |table| && table[j] == info.value && forall k :: 0 <= k < j ==> table[k][0] != Sym(script);
    assert table[j][0] == table[i][0];
    assert j == i;
  }

  // ---------------------------------------------------------------------
  // mlanguage_list, mscript_list

  /** The first symbol of each record, in table order. */
  function Heads(table: seq<Record>): (r: seq<Symbol>)
    requires TableOk(table)
    ensures |r| == |table| && forall i :: 0 <= i < |table| ==> Sym(r[i]) == table[i][0]
  {
    if |table| == 0 then [] else [table[0][0].name] + Heads(table[1..])
  }

  /** `mlanguage_list`: the three-letter code of every language, loading
      the table first; `None` when that load fails.  A later call finds
      the (empty) table and lists nothing. */
  function LanguageList(st: LangState, db: Option<seq<Elem>>): (r: (LangState, Option<seq<Symbol>>))
    requires LangStateOk(st)
    ensures var (st1, ok) := EnsureLanguages(st, db);
            r.0 == st1 && (r.1.Some? <==> ok)
    ensures r.1.Some? ==> var table := r.0.languages.value;
                          |r.1.value| == |table| && forall i :: 0 <= i < |table| ==> LanguageInfo(table, r.1.value[i]).Some?
    ensures r.1.Some? ==> forall i :: 0 <= i < |r.1.value| ==> Sym(r.1.value[i]) == r.0.languages.value[i][0]
  {
    var (st1, ok) := EnsureLanguages(st, db);
    if !ok then (st1, None)
    else
      var table := st1.languages.value;
      var heads := Heads(table);
      forall i | 0 <= i < |table| ensures LanguageInfo(table, heads[i]).Some? {
        ListedLanguageFound(table, i);
      }
      (st1, Some(heads))
  }

  /** `mscript_list`: the name of every script, likewise. */
  function ScriptList(st: LangState, db: Option<seq<Elem>>): (r: (LangState, Option<seq<Symbol>>))
    requires LangStateOk(st)
    ensures var (st1, ok) := EnsureScripts(st, db);
            r.0 == st1 && (r.1.Some? <==> ok)
    ensures r.1.Some? ==> var table := r.0.scripts.value;
                          |r.1.value| == |table| && forall i :: 0 <= i < |table| ==> ScriptInfo(table, r.1.value[i]).Some?
    ensures r.1.Some? ==> forall i :: 0 <= i < |r.1.value| ==> Sym(r.1.value[i]) == r.0.scripts.value[i][0]
  {
    var (st1, ok) := EnsureScripts(st, db);
    if !ok then (st1, None)
    else
      var table := st1.scripts.value;
      var heads := Heads(table);
      assert forall i :: 0 <= i < |table| ==> table[i][0] == Sym(heads[i]);
      (st1, Some(heads))
  }

  /** A failed first load answers `None`, and the next call lists
      nothing: the table stays empty for good. */
  lemma FailedLoadListsNothing(db: Option<seq<Elem>>)
    requires db.None?
    ensures var r1 := LanguageList(InitialState, db);
            r1.1.None? && LanguageList(r1.0, db).1 == Some([])
  {
  }
}
