/** The registry-keyed override tables of font.c: the encoding table
    (`load_font_encoding_table`, `find_encoding`, `mfont_set_encoding`)
    and the resize table (`load_font_resize_table`, `mfont__resize`), and
    the character encoding of a realized font (`mfont__encode_char`,
    `mfont__encodable_p`).

    Charsets are known by name: `charsets` is the set of names `MCHARSET`
    resolves, and `encode(charset, c)` is `ENCODE_CHAR`.  The database is
    the list of elements the table's data holds, or None when it cannot be
    found or loaded.  Both are fixed for the life of the process. */
module FontTables {

  import opened Plist
  import opened FontProps

  /** `MCHAR_INVALID_CODE`. */
  const InvalidCode: int := 0xFFFF_FFFF

  /** An encoding-table entry: a spec pattern, the encoding charset name
      and the repertory charset name (`nil` for none). */
  datatype FontEncoding = FontEncoding(spec: MFont, encodingName: Symbol, repertoryName: Symbol)

  /** A resize-table entry: a spec pattern and a percentage. */
  datatype FontResize = FontResize(spec: MFont, resize: int)

  type EncodingList = seq<(Symbol, FontEncoding)>
  type ResizeList = seq<(Symbol, FontResize)>

  /** The charsets an encoding resolved to.  The default encoding, used
      when no entry applies, has neither. */
  datatype Encoding = Encoding(encodingCharset: Option<Symbol>, repertoryCharset: Option<Symbol>)

  const DefaultEncoding: Encoding := Encoding(None, None)

  /** Process-wide font state: the interning tables and the two lazily
      loaded override tables (None until first use). */
  datatype FontState = FontState(tables: PropTables, encodings: Option<EncodingList>,
                                 resizes: Option<ResizeList>)

  ghost predicate StateOk(st: FontState)
  {
    && TablesOk(st.tables)
    && (st.encodings.Some? ==> forall i :: 0 <= i < |st.encodings.value| ==> st.encodings.value[i].0 != Nil)
    && (st.resizes.Some? ==> forall i :: 0 <= i < |st.resizes.value| ==> st.resizes.value[i].0 != Nil)
  }

  // ---------------------------------------------------------------------
  // Loading

  /** An element of the encoding data the loader keeps: a list of at least
      two items, a spec list, an encoding symbol, and optionally a
      repertory symbol. */
  predicate EncodingEntryOk(e: Elem)
  {
    && e.List? && |e.items| >= 2 && e.items[0].List? && e.items[1].Sym?
    && (|e.items| > 2 ==> e.items[2].Sym?)
  }

  /** One element of the encoding data.  A malformed element is skipped,
      but a spec list that was read before the malformation was noticed
      has already interned its symbols. */
  function LoadEncodingEntry(t: PropTables, e: Elem): (r: (PropTables, Option<(Symbol, FontEncoding)>))
    requires TablesOk(t)
    ensures TablesOk(r.0) && Extends(t, r.0)
    ensures r.1.Some? <==> EncodingEntryOk(e)
    ensures r.1.Some? ==> r.1.value.0 != Nil && FontOk(r.0, r.1.value.1.spec)
    ensures r.1.Some? ==> r.1.value.1.encodingName == e.items[1].name
    ensures r.1.Some? ==> r.1.value.1.repertoryName
                          == (if |e.items| == 2 then e.items[1].name else e.items[2].name)
    ensures r.1.Some? ==> EncodingEntryOf(r.0, e, r.1.value)
  {
    if !(e.List? && |e.items| >= 2 && e.items[0].List?) then (t, None)
    else
      var (t1, spec, registry) := SpecFromPlist(t, e.items[0].items);
      if !e.items[1].Sym? then (t1, None)
      else
        var enc := e.items[1].name;
        if |e.items| == 2 then (t1, Some((NilAsT(registry), FontEncoding(spec, enc, enc))))
        else if !e.items[2].Sym? then (t1, None)
        else (t1, Some((NilAsT(registry), FontEncoding(spec, enc, e.items[2].name))))
  }

  /** The entry an accepted element of the encoding data stands for: filed
      under the registry its spec list names (`nil` as `t`), with the spec
      that list denotes, the encoding symbol, and the repertory symbol, or
      the encoding symbol again when there is none. */
  ghost predicate EncodingEntryOf(t: PropTables, e: Elem, entry: (Symbol, FontEncoding))
    requires EncodingEntryOk(e)
  {
    && entry.0 == NilAsT(SpecRegistry(e.items[0].items))
    && Denotes(t, entry.1.spec, e.items[0].items)
    && entry.1.encodingName == e.items[1].name
    && entry.1.repertoryName == (if |e.items| == 2 then e.items[1].name else e.items[2].name)
  }

  /** `l` holds, in order, the entry of each accepted element of `elems`
      and nothing else. */
  ghost predicate EncodingsOf(t: PropTables, elems: seq<Elem>, l: EncodingList)
    decreases |elems|
  {
    if |elems| == 0 then l == []
    else
      var e := elems[|elems| - 1];
      if EncodingEntryOk(e) then
        |l| > 0 && EncodingEntryOf(t, e, l[|l| - 1]) && EncodingsOf(t, elems[..|elems| - 1], l[..|l| - 1])
      else EncodingsOf(t, elems[..|elems| - 1], l)
  }

  lemma EncodingsOfSnoc(t: PropTables, elems: seq<Elem>, l: EncodingList, x: (Symbol, FontEncoding))
    requires |elems| > 0 && EncodingEntryOk(elems[|elems| - 1]) && EncodingEntryOf(t, elems[|elems| - 1], x)
    requires EncodingsOf(t, elems[..|elems| - 1], l)
    ensures EncodingsOf(t, elems, l + [x])
  {
    assert (l + [x])[..|l|] == l;
  }

  lemma {:induction false} EncodingsOfExtends(t: PropTables, u: PropTables, elems: seq<Elem>, l: EncodingList)
    requires EncodingsOf(t, elems, l) && Extends(t, u)
    ensures EncodingsOf(u, elems, l)
    decreases |elems|
  {
    if |elems| > 0 {
      var e := elems[|elems| - 1];
      if EncodingEntryOk(e) {
        EncodingsOfExtends(t, u, elems[..|elems| - 1], l[..|l| - 1]);
        DenotesExtends(t, u, l[|l| - 1].1.spec, e.items[0].items);
      } else {
        EncodingsOfExtends(t, u, elems[..|elems| - 1], l);
      }
    }
  }

  /** The relation pins the table: over well-formed tables, the data
      determines it completely. */
  lemma {:induction false} EncodingsOfUnique(t: PropTables, elems: seq<Elem>, l1: EncodingList, l2: EncodingList)
    requires TablesOk(t) && EncodingsOf(t, elems, l1) && EncodingsOf(t, elems, l2)
    ensures l1 == l2
    decreases |elems|
  {
    if |elems| > 0 {
      var e := elems[|elems| - 1];
      if EncodingEntryOk(e) {
        EncodingsOfUnique(t, elems[..|elems| - 1], l1[..|l1| - 1], l2[..|l2| - 1]);
        DenotesUnique(t, l1[|l1| - 1].1.spec, l2[|l2| - 1].1.spec, e.items[0].items);
        assert l1 == l1[..|l1| - 1] + [l1[|l1| - 1]];
        assert l2 == l2[..|l2| - 1] + [l2[|l2| - 1]];
      } else {
        EncodingsOfUnique(t, elems[..|elems| - 1], l1, l2);
      }
    }
  }

  /** `load_font_encoding_table`: the well-formed elements of the data, in
      order; an empty table when the data is missing. */
  function LoadEncodingTable(t: PropTables, db: Option<seq<Elem>>): (r: (PropTables, EncodingList))
    requires TablesOk(t)
    ensures TablesOk(r.0) && Extends(t, r.0)
    ensures db.None? ==> r == (t, [])
    ensures |r.1| == (if db.None? then 0 else CountOk(db.value, EncodingEntryOk))
    ensures forall i :: 0 <= i < |r.1| ==> r.1[i].0 != Nil && FontOk(r.0, r.1[i].1.spec)
    decreases if db.None? then 0 else |db.value|
  {
    if db.None? || |db.value| == 0 then (t, [])
    else
      var elems := db.value;
      var (t1, prefix) := LoadEncodingTable(t, Some(elems[..|elems| - 1]));
      var (t2, entry) := LoadEncodingEntry(t1, elems[|elems| - 1]);
      ExtendsKeepsFonts(t1, t2, prefix);
      ExtendsTrans(t, t1, t2);
      if entry.Some? then
        (t2, prefix + [entry.value])
      else (t2, prefix)
  }

  /** The table loaded holds, in order, the entry of each accepted element
      of the data and nothing else. */
  lemma {:induction false} LoadEncodingTableContents(t: PropTables, elems: seq<Elem>)
    requires TablesOk(t)
    ensures var r := LoadEncodingTable(t, Some(elems)); EncodingsOf(r.0, elems, r.1)
    decreases |elems|
  {
    if |elems| > 0 {
      var init := elems[..|elems| - 1];
      var (t1, prefix) := LoadEncodingTable(t, Some(init));
      var (t2, entry) := LoadEncodingEntry(t1, elems[|elems| - 1]);
      LoadEncodingTableContents(t, init);
      EncodingsOfExtends(t1, t2, init, prefix);
      if entry.Some? {
        assert LoadEncodingTable(t, Some(elems)) == (t2, prefix + [entry.value]);
        EncodingsOfSnoc(t2, elems, prefix, entry.value);
      } else {
        assert LoadEncodingTable(t, Some(elems)) == (t2, prefix);
      }
    }
  }

  /** An element of the resize data the loader keeps: exactly a spec list
      and an integer. */
  predicate ResizeEntryOk(e: Elem)
  {
    e.List? && |e.items| == 2 && e.items[0].List? && e.items[1].Int?
  }

  function LoadResizeEntry(t: PropTables, e: Elem): (r: (PropTables, Option<(Symbol, FontResize)>))
    requires TablesOk(t)
    ensures TablesOk(r.0) && Extends(t, r.0)
    ensures r.1.Some? <==> ResizeEntryOk(e)
    ensures r.1.Some? ==> r.1.value.0 != Nil && FontOk(r.0, r.1.value.1.spec)
    ensures r.1.Some? ==> r.1.value.1.resize == e.items[1].value
    ensures r.1.Some? ==> ResizeEntryOf(r.0, e, r.1.value)
  {
    if !(e.List? && |e.items| == 2 && e.items[0].List?) then (t, None)
    else
      var (t1, spec, registry) := SpecFromPlist(t, e.items[0].items);
      if !e.items[1].Int? then (t1, None)
      else (t1, Some((NilAsT(registry), FontResize(spec, e.items[1].value))))
  }

  /** The entry an accepted element of the resize data stands for: filed
      under the registry its spec list names (`nil` as `t`), with the spec
      that list denotes and the percentage. */
  ghost predicate ResizeEntryOf(t: PropTables, e: Elem, entry: (Symbol, FontResize))
    requires ResizeEntryOk(e)
  {
    && entry.0 == NilAsT(SpecRegistry(e.items[0].items))
    && Denotes(t, entry.1.spec, e.items[0].items)
    && entry.1.resize == e.items[1].value
  }

  /** `l` holds, in order, the entry of each accepted element of `elems`
      and nothing else. */
  ghost predicate ResizesOf(t: PropTables, elems: seq<Elem>, l: ResizeList)
    decreases |elems|
  {
    if |elems| == 0 then l == []
    else
      var e := elems[|elems| - 1];
      if ResizeEntryOk(e) then
        |l| > 0 && ResizeEntryOf(t, e, l[|l| - 1]) && ResizesOf(t, elems[..|elems| - 1], l[..|l| - 1])
      else ResizesOf(t, elems[..|elems| - 1], l)
  }

  lemma ResizesOfSnoc(t: PropTables, elems: seq<Elem>, l: ResizeList, x: (Symbol, FontResize))
    requires |elems| > 0 && ResizeEntryOk(elems[|elems| - 1]) && ResizeEntryOf(t, elems[|elems| - 1], x)
    requires ResizesOf(t, elems[..|elems| - 1], l)
    ensures ResizesOf(t, elems, l + [x])
  {
    assert (l + [x])[..|l|] == l;
  }

  lemma {:induction false} ResizesOfExtends(t: PropTables, u: PropTables, elems: seq<Elem>, l: ResizeList)
    requires ResizesOf(t, elems, l) && Extends(t, u)
    ensures ResizesOf(u, elems, l)
    decreases |elems|
  {
    if |elems| > 0 {
      var e := elems[|elems| - 1];
      if ResizeEntryOk(e) {
        ResizesOfExtends(t, u, elems[..|elems| - 1], l[..|l| - 1]);
        DenotesExtends(t, u, l[|l| - 1].1.spec, e.items[0].items);
      } else {
        ResizesOfExtends(t, u, elems[..|elems| - 1], l);
      }
    }
  }

  /** The relation pins the table: over well-formed tables, the data
      determines it completely. */
  lemma {:induction false} ResizesOfUnique(t: PropTables, elems: seq<Elem>, l1: ResizeList, l2: ResizeList)
    requires TablesOk(t) && ResizesOf(t, elems, l1) && ResizesOf(t, elems, l2)
    ensures l1 == l2
    decreases |elems|
  {
    if |elems| > 0 {
      var e := elems[|elems| - 1];
      if ResizeEntryOk(e) {
        ResizesOfUnique(t, elems[..|elems| - 1], l1[..|l1| - 1], l2[..|l2| - 1]);
        DenotesUnique(t, l1[|l1| - 1].1.spec, l2[|l2| - 1].1.spec, e.items[0].items);
        assert l1 == l1[..|l1| - 1] + [l1[|l1| - 1]];
        assert l2 == l2[..|l2| - 1] + [l2[|l2| - 1]];
      } else {
        ResizesOfUnique(t, elems[..|elems| - 1], l1, l2);
      }
    }
  }

  /** `load_font_resize_table`: the well-formed elements of the data, in
      order; an empty table when the data is missing. */
  function LoadResizeTable(t: PropTables, db: Option<seq<Elem>>): (r: (PropTables, ResizeList))
    requires TablesOk(t)
    ensures TablesOk(r.0) && Extends(t, r.0)
    ensures db.None? ==> r == (t, [])
    ensures |r.1| == (if db.None? then 0 else CountOk(db.value, ResizeEntryOk))
    ensures forall i :: 0 <= i < |r.1| ==> r.1[i].0 != Nil && FontOk(r.0, r.1[i].1.spec)
    decreases if db.None? then 0 else |db.value|
  {
    if db.None? || |db.value| == 0 then (t, [])
    else
      var elems := db.value;
      var (t1, prefix) := LoadResizeTable(t, Some(elems[..|elems| - 1]));
      var (t2, entry) := LoadResizeEntry(t1, elems[|elems| - 1]);
      ExtendsKeepsResizeFonts(t1, t2, prefix);
      ExtendsTrans(t, t1, t2);
      if entry.Some? then
        (t2, prefix + [entry.value])
      else (t2, prefix)
  }

  /** The table loaded holds, in order, the entry of each accepted element
      of the data and nothing else. */
  lemma {:induction false} LoadResizeTableContents(t: PropTables, elems: seq<Elem>)
    requires TablesOk(t)
    ensures var r := LoadResizeTable(t, Some(elems)); ResizesOf(r.0, elems, r.1)
    decreases |elems|
  {
    if |elems| > 0 {
      var init := elems[..|elems| - 1];
      var (t1, prefix) := LoadResizeTable(t, Some(init));
      var (t2, entry) := LoadResizeEntry(t1, elems[|elems| - 1]);
      LoadResizeTableContents(t, init);
      ResizesOfExtends(t1, t2, init, prefix);
      if entry.Some? {
        assert LoadResizeTable(t, Some(elems)) == (t2, prefix + [entry.value]);
        ResizesOfSnoc(t2, elems, prefix, entry.value);
      } else {
        assert LoadResizeTable(t, Some(elems)) == (t2, prefix);
      }
    }
  }

  lemma ExtendsTrans(a: PropTables, b: PropTables, c: PropTables)
    requires Extends(a, b) && Extends(b, c)
    ensures Extends(a, c)
  {
    forall k | 0 <= k < |a| ensures a[k] <= c[k] {
      assert b[k][..|a[k]|] == a[k];
    }
  }

  lemma ExtendsKeepsFont(a: PropTables, b: PropTables, f: MFont)
    requires FontOk(a, f) && Extends(a, b)
    ensures FontOk(b, f)
    ensures forall k :: 0 <= k < NumSymbolic ==> Name(b, f, k) == Name(a, f, k)
  {
    forall k | 0 <= k < NumSymbolic ensures Name(b, f, k) == Name(a, f, k) {
      assert b[k][..|a[k]|] == a[k];
    }
  }

  lemma ExtendsKeepsFonts(a: PropTables, b: PropTables, l: EncodingList)
    requires Extends(a, b)
    requires forall i :: 0 <= i < |l| ==> FontOk(a, l[i].1.spec)
    ensures forall i :: 0 <= i < |l| ==> FontOk(b, l[i].1.spec)
  {
    forall i | 0 <= i < |l| ensures FontOk(b, l[i].1.spec) {
      ExtendsKeepsFont(a, b, l[i].1.spec);
    }
  }

  lemma ExtendsKeepsResizeFonts(a: PropTables, b: PropTables, l: ResizeList)
    requires Extends(a, b)
    requires forall i :: 0 <= i < |l| ==> FontOk(a, l[i].1.spec)
    ensures forall i :: 0 <= i < |l| ==> FontOk(b, l[i].1.spec)
  {
    forall i | 0 <= i < |l| ensures FontOk(b, l[i].1.spec) {
      ExtendsKeepsFont(a, b, l[i].1.spec);
    }
  }

  /** Load the encoding table on first use. */
  function EnsureEncodings(st: FontState, db: Option<seq<Elem>>): (r: FontState)
    requires StateOk(st)
    ensures StateOk(r) && r.encodings.Some? && Extends(st.tables, r.tables) && r.resizes == st.resizes
    ensures st.encodings.Some? ==> r == st
  {
    if st.encodings.Some? then st
    else
      var (t, l) := LoadEncodingTable(st.tables, db);
      st.(tables := t, encodings := Some(l))
  }

  /** Load the resize table on first use. */
  function EnsureResizes(st: FontState, db: Option<seq<Elem>>): (r: FontState)
    requires StateOk(st)
    ensures StateOk(r) && r.resizes.Some? && Extends(st.tables, r.tables) && r.encodings == st.encodings
    ensures st.resizes.Some? ==> r == st
  {
    if st.resizes.Some? then st
    else
      var (t, l) := LoadResizeTable(st.tables, db);
      st.(tables := t, resizes := Some(l))
  }

  // ---------------------------------------------------------------------
  // find_encoding

  /** Whether a pass of a registry search for `key` visits an entry filed
      under `k`.  A font whose registry is unset reads it as `nil`, which
      is the null symbol: the searches then test `registry ? … : plist`
      false and walk every entry whatever its key. */
  predicate Filed(k: Symbol, key: Symbol)
  {
    key == Nil || k == key
  }

  /** The entry applies to the font and its charsets resolve. */
  predicate Usable(entry: (Symbol, FontEncoding), key: Symbol, font: MFont, charsets: set<Symbol>)
  {
    && Filed(entry.0, key)
    && MatchP(font, entry.1.spec, Adstyle)
    && entry.1.encodingName in charsets
    && (entry.1.repertoryName == entry.1.encodingName || entry.1.repertoryName == Nil
        || entry.1.repertoryName in charsets)
  }

  /** The entry applies to the font but a charset it names is unknown:
      the search drops it from the table. */
  predicate Broken(entry: (Symbol, FontEncoding), key: Symbol, font: MFont, charsets: set<Symbol>)
  {
    Filed(entry.0, key) && MatchP(font, entry.1.spec, Adstyle) && !Usable(entry, key, font, charsets)
  }

  /** The charsets a usable entry resolves to. */
  function Resolve(e: FontEncoding): Encoding
  {
    Encoding(Some(e.encodingName),
             if e.repertoryName == e.encodingName then Some(e.encodingName)
             else if e.repertoryName == Nil then None
             else Some(e.repertoryName))
  }

  /** Index of the first usable entry at or after `pos`. */
  function FirstUsable(l: EncodingList, key: Symbol, font: MFont, charsets: set<Symbol>, pos: nat): (r: Option<nat>)
    ensures r.Some? ==> pos <= r.value < |l| && Usable(l[r.value], key, font, charsets)
    ensures r.Some? ==> forall i :: pos <= i < r.value ==> !Usable(l[i], key, font, charsets)
    ensures r.None? ==> forall i :: pos <= i < |l| ==> !Usable(l[i], key, font, charsets)
    decreases |l| - pos
  {
    if pos >= |l| then None
    else if Usable(l[pos], key, font, charsets) then Some(pos)
    else FirstUsable(l, key, font, charsets, pos + 1)
  }

  /** `s` without its broken entries. */
  function DropBroken(s: EncodingList, key: Symbol, font: MFont, charsets: set<Symbol>): (r: EncodingList)
    ensures |r| <= |s|
    ensures forall i :: 0 <= i < |r| ==> !Broken(r[i], key, font, charsets) && r[i] in s
  {
    if |s| == 0 then []
    else if Broken(s[0], key, font, charsets) then DropBroken(s[1..], key, font, charsets)
    else [s[0]] + DropBroken(s[1..], key, font, charsets)
  }

  /** Where a pass of the search stops: at the first usable entry, or at
      the end of the table. */
  function ScanEnd(l: EncodingList, key: Symbol, font: MFont, charsets: set<Symbol>, pos: nat): (e: nat)
    requires pos <= |l|
    ensures pos <= e <= |l|
  {
    var j := FirstUsable(l, key, font, charsets, pos);
    if j.Some? then j.value else |l|
  }

  /** The table a pass from `pos` leaves behind: the broken entries before
      the stopping point are gone, everything else is kept in order. */
  ghost function AfterScan(l: EncodingList, key: Symbol, font: MFont, charsets: set<Symbol>, pos: nat): EncodingList
    requires pos <= |l|
  {
    var e := ScanEnd(l, key, font, charsets, pos);
    l[..pos] + DropBroken(l[pos..e], key, font, charsets) + l[e..]
  }

  /** One pass of the search loop of `find_encoding` under `key`, from
      position `pos`: skip entries the pass does not visit or not matching
      the font up to the adstyle axis; pop a matching entry whose charsets
      do not resolve and look again at the same position; stop at the
      first matching entry whose charsets resolve. */
  function ScanEncodings(l: EncodingList, key: Symbol, font: MFont, charsets: set<Symbol>, pos: nat)
    : (r: (EncodingList, Option<Encoding>))
    requires pos <= |l|
    ensures var j := FirstUsable(l, key, font, charsets, pos);
            && r.1 == (if j.Some? then Some(Resolve(l[j.value].1)) else None)
            && r.0 == AfterScan(l, key, font, charsets, pos)
    decreases |l| - pos
  {
    if pos == |l| then
      assert l[..pos] == l && l[pos..] == [];
      (l, None)
    else if !Filed(l[pos].0, key) || !MatchP(font, l[pos].1.spec, Adstyle) then
      SkipStep(l, key, font, charsets, pos);
      ScanEncodings(l, key, font, charsets, pos + 1)
    else if !Usable(l[pos], key, font, charsets) then
      PopStep(l, key, font, charsets, pos);
      ScanEncodings(l[..pos] + l[pos + 1..], key, font, charsets, pos)
    else
      assert l[pos..pos] == [];
      assert l[..pos] + l[pos..] == l;
      (l, Some(Resolve(l[pos].1)))
  }

  /** Skipping an entry that is neither usable nor broken leaves the
      outcome of the pass unchanged. */
  lemma SkipStep(l: EncodingList, key: Symbol, font: MFont, charsets: set<Symbol>, pos: nat)
    requires pos < |l| && !Usable(l[pos], key, font, charsets) && !Broken(l[pos], key, font, charsets)
    ensures FirstUsable(l, key, font, charsets, pos) == FirstUsable(l, key, font, charsets, pos + 1)
    ensures AfterScan(l, key, font, charsets, pos) == AfterScan(l, key, font, charsets, pos + 1)
  {
    var e := ScanEnd(l, key, font, charsets, pos + 1);
    assert ScanEnd(l, key, font, charsets, pos) == e;
    KeepHead(l, pos, e, key, font, charsets);
  }

  lemma KeepHead(l: EncodingList, pos: nat, e: nat, key: Symbol, font: MFont, charsets: set<Symbol>)
    requires pos < e <= |l| && !Broken(l[pos], key, font, charsets)
    ensures l[..pos] + DropBroken(l[pos..e], key, font, charsets) + l[e..]
            == l[..pos + 1] + DropBroken(l[pos + 1..e], key, font, charsets) + l[e..]
  {
    var s := l[pos..e];
    assert s[0] == l[pos] && s[1..] == l[pos + 1..e];
    DropBrokenCons(s, key, font, charsets);
    assert l[..pos + 1] == l[..pos] + [l[pos]];
    ShiftOne(l[..pos], l[pos], DropBroken(l[pos + 1..e], key, font, charsets), l[e..]);
  }

  lemma ShiftOne<X>(a: seq<X>, x: X, d: seq<X>, b: seq<X>)
    ensures a + ([x] + d) + b == a + [x] + d + b
  {
    assert a + ([x] + d) == a + [x] + d;
  }

  lemma DropBrokenCons(s: EncodingList, key: Symbol, font: MFont, charsets: set<Symbol>)
    requires |s| > 0 && !Broken(s[0], key, font, charsets)
    ensures DropBroken(s, key, font, charsets) == [s[0]] + DropBroken(s[1..], key, font, charsets)
  {
  }

  /** Popping a broken entry at `pos` and scanning again from `pos` has
      the outcome of scanning the original table from `pos`. */
  lemma PopStep(l: EncodingList, key: Symbol, font: MFont, charsets: set<Symbol>, pos: nat)
    requires pos < |l| && Broken(l[pos], key, font, charsets)
    ensures var popped := l[..pos] + l[pos + 1..];
            var j := FirstUsable(l, key, font, charsets, pos);
            var k := FirstUsable(popped, key, font, charsets, pos);
            && (j.Some? <==> k.Some?)
            && (j.Some? ==> popped[k.value] == l[j.value])
            && AfterScan(popped, key, font, charsets, pos) == AfterScan(l, key, font, charsets, pos)
  {
    var popped := l[..pos] + l[pos + 1..];
    PopShiftsUsable(l, key, font, charsets, pos);
    var e := ScanEnd(l, key, font, charsets, pos);
    assert e >= pos + 1;
    assert ScanEnd(popped, key, font, charsets, pos) == e - 1;
    assert forall i :: pos <= i < |popped| ==> popped[i] == l[i + 1];
    assert popped[..pos] == l[..pos];
    assert popped[pos..e - 1] == l[pos + 1..e];
    assert popped[e - 1..] == l[e..];
    assert l[pos..e] == [l[pos]] + l[pos + 1..e];
  }

  /** Popping a non-usable entry at `pos` shifts the first usable entry
      after it down by one. */
  lemma PopShiftsUsable(l: EncodingList, key: Symbol, font: MFont, charsets: set<Symbol>, pos: nat)
    requires pos < |l| && !Usable(l[pos], key, font, charsets)
    ensures var popped := l[..pos] + l[pos + 1..];
            var j := FirstUsable(l, key, font, charsets, pos);
            var k := FirstUsable(popped, key, font, charsets, pos);
            && (j.Some? <==> k.Some?)
            && (j.Some? ==> k.value == j.value - 1 && popped[k.value] == l[j.value])
  {
    var popped := l[..pos] + l[pos + 1..];
    var j := FirstUsable(l, key, font, charsets, pos);
    var k := FirstUsable(popped, key, font, charsets, pos);
    forall i | pos <= i < |popped| ensures Usable(popped[i], key, font, charsets) == Usable(l[i + 1], key, font, charsets) {
      assert popped[i] == l[i + 1];
    }
    if j.Some? {
      assert j.value > pos;
      assert Usable(popped[j.value - 1], key, font, charsets);
      assert k.value <= j.value - 1;
    }
  }

  /** `find_encoding`: the first usable entry under the font's registry,
      else (unless the registry is `nil` or `t`) the first usable entry
      under `t`, else the default encoding.  A `nil` registry visits every
      entry.  The broken entries each pass meets before it stops are
      removed from the table, and nothing else of the state changes. */
  function FindEncoding(st: FontState, db: Option<seq<Elem>>, charsets: set<Symbol>, font: MFont)
    : (r: (FontState, Encoding))
    requires StateOk(st) && FontOk(st.tables, font)
    ensures StateOk(r.0) && Extends(st.tables, r.0.tables) && r.0.encodings.Some?
    ensures r.0.resizes == st.resizes
    ensures var registry := Name(st.tables, font, Registry);
            var l := EnsureEncodings(st, db).encodings.value;
            var j := FirstUsable(l, registry, font, charsets, 0);
            && (j.Some? ==> r.1 == Resolve(l[j.value].1))
            && (j.None? && (registry == Nil || registry == T) ==> r.1 == DefaultEncoding)
            && (j.None? && registry != Nil && registry != T ==>
                  var l1 := AfterScan(l, registry, font, charsets, 0);
                  var jt := FirstUsable(l1, T, font, charsets, 0);
                  r.1 == if jt.Some? then Resolve(l1[jt.value].1) else DefaultEncoding)
    ensures var st1 := EnsureEncodings(st, db);
            var registry := Name(st.tables, font, Registry);
            var l := st1.encodings.value;
            var l1 := AfterScan(l, registry, font, charsets, 0);
            var again := FirstUsable(l, registry, font, charsets, 0).None? && registry != Nil && registry != T;
            r.0 == st1.(encodings := Some(if again then AfterScan(l1, T, font, charsets, 0) else l1))
  {
    var st1 := EnsureEncodings(st, db);
    var l := st1.encodings.value;
    ExtendsKeepsFont(st.tables, st1.tables, font);
    var registry := Name(st1.tables, font, Registry);
    if |l| == 0 then
      assert AfterScan(l, registry, font, charsets, 0) == l && AfterScan(l, T, font, charsets, 0) == l;
      (st1, DefaultEncoding)
    else
      var (l1, found) := ScanEncodings(l, registry, font, charsets, 0);
      DropBrokenKeys(l, registry, font, charsets);
      var st2 := st1.(encodings := Some(l1));
      assert StateOk(st2) by {
        KeepKeys(l, l1, registry, font, charsets);
      }
      if found.Some? then (st2, found.value)
      else if registry == Nil || registry == T then (st2, DefaultEncoding)
      else
        var (l2, found2) := ScanEncodings(l1, T, font, charsets, 0);
        var st3 := st1.(encodings := Some(l2));
        assert StateOk(st3) by {
          KeepKeys(l1, l2, T, font, charsets);
        }
        if found2.Some? then (st3, found2.value) else (st3, DefaultEncoding)
  }

  lemma DropBrokenKeys(s: EncodingList, key: Symbol, font: MFont, charsets: set<Symbol>)
    ensures forall e :: e in DropBroken(s, key, font, charsets) ==> e in s
  {
  }

  lemma KeepKeys(l: EncodingList, l1: EncodingList, key: Symbol, font: MFont, charsets: set<Symbol>)
    requires l1 == AfterScan(l, key, font, charsets, 0)
    requires forall i :: 0 <= i < |l| ==> l[i].0 != Nil
    ensures forall i :: 0 <= i < |l1| ==> l1[i].0 != Nil
  {
    var end := ScanEnd(l, key, font, charsets, 0);
    var mid := DropBroken(l[0..end], key, font, charsets);
    forall i | 0 <= i < |l1| ensures l1[i].0 != Nil {
      if i < |mid| {
        assert l1[i] == mid[i];
        assert mid[i] in l[0..end];
      } else {
        assert l1[i] == l[end + (i - |mid|)];
      }
    }
  }

  lemma {:induction false} DropBrokenIdem(s: EncodingList, key: Symbol, font: MFont, charsets: set<Symbol>)
    ensures DropBroken(DropBroken(s, key, font, charsets), key, font, charsets) == DropBroken(s, key, font, charsets)
  {
    if |s| > 0 {
      DropBrokenIdem(s[1..], key, font, charsets);
      if !Broken(s[0], key, font, charsets) {
        var d := DropBroken(s, key, font, charsets);
        assert d[0] == s[0] && d[1..] == DropBroken(s[1..], key, font, charsets);
      }
    }
  }

  /** A pass leaves nothing to clean up: repeating it on the table it
      left finds the same encoding and removes nothing more. */
  lemma ScanTwice(l: EncodingList, key: Symbol, font: MFont, charsets: set<Symbol>)
    ensures var r := ScanEncodings(l, key, font, charsets, 0);
            ScanEncodings(r.0, key, font, charsets, 0) == r
  {
    var r := ScanEncodings(l, key, font, charsets, 0);
    var e := ScanEnd(l, key, font, charsets, 0);
    var d := DropBroken(l[0..e], key, font, charsets);
    assert l[..0] == [];
    assert r.0 == d + l[e..];
    forall i | 0 <= i < |d| ensures !Usable(d[i], key, font, charsets) {
      assert d[i] in l[0..e];
    }
    DropBrokenIdem(l[0..e], key, font, charsets);
    if e < |l| {
      assert l[e..][0] == l[e];
    }
    ScanClean(d, l[e..], key, font, charsets);
  }

  /** A table whose entries before the first usable one are all neither
      usable nor broken comes out of a pass unchanged. */
  lemma ScanClean(d: EncodingList, rest: EncodingList, key: Symbol, font: MFont, charsets: set<Symbol>)
    requires forall i :: 0 <= i < |d| ==> !Usable(d[i], key, font, charsets)
    requires DropBroken(d, key, font, charsets) == d
    requires |rest| > 0 ==> Usable(rest[0], key, font, charsets)
    ensures ScanEncodings(d + rest, key, font, charsets, 0)
            == (d + rest, if |rest| > 0 then Some(Resolve(rest[0].1)) else None)
  {
    CleanPrefixFirst(d, rest, key, font, charsets);
    CleanPrefixAfter(d, rest, key, font, charsets);
    if |rest| > 0 {
      assert (d + rest)[|d|] == rest[0];
    }
  }

  /** The first usable entry of such a table is the head of `rest`. */
  lemma CleanPrefixFirst(d: EncodingList, rest: EncodingList, key: Symbol, font: MFont, charsets: set<Symbol>)
    requires forall i :: 0 <= i < |d| ==> !Usable(d[i], key, font, charsets)
    requires |rest| > 0 ==> Usable(rest[0], key, font, charsets)
    ensures FirstUsable(d + rest, key, font, charsets, 0) == if |rest| > 0 then Some(|d|) else None
    ensures ScanEnd(d + rest, key, font, charsets, 0) == |d|
  {
    var x := d + rest;
    assert forall i :: 0 <= i < |d| ==> x[i] == d[i];
    if |rest| > 0 {
      assert x[|d|] == rest[0];
    } else {
      assert x == d;
    }
  }

  /** A pass that stops right after a prefix with nothing broken in it
      removes nothing. */
  lemma CleanPrefixAfter(d: EncodingList, rest: EncodingList, key: Symbol, font: MFont, charsets: set<Symbol>)
    requires DropBroken(d, key, font, charsets) == d
    requires ScanEnd(d + rest, key, font, charsets, 0) == |d|
    ensures AfterScan(d + rest, key, font, charsets, 0) == d + rest
  {
    var x := d + rest;
    assert x[..0] == [] && x[0..|d|] == d && x[|d|..] == rest;
  }

  // ---------------------------------------------------------------------
  // mfont__resize

  /** C's `/` on ints, which truncates toward zero. */
  function TruncDiv(a: int, b: int): (q: int)
    requires b > 0
    ensures Abs(q) * b <= Abs(a) < (Abs(q) + 1) * b
    ensures a >= 0 ==> q >= 0
    ensures a <= 0 ==> q <= 0
  {
    if a >= 0 then DivBounds(a, b); a / b
    else DivBounds(-a, b); -((-a) / b)
  }

  /** The quotient of naturals brackets the dividend between two
      consecutive multiples of the divisor. */
  lemma DivBounds(n: nat, b: nat)
    requires b > 0
    ensures n / b >= 0 && (n / b) * b <= n < (n / b + 1) * b
  {
    var q, m := n / b, n % b;
    assert n == q * b + m && 0 <= m < b;
    assert (q + 1) * b == q * b + b;
  }

  function Abs(a: int): nat
  {
    if a < 0 then -a else a
  }

  /** Index of the first resize entry a pass for `key` visits that
      matches `spec` up to the adstyle axis. */
  function FirstResize(l: ResizeList, key: Symbol, spec: MFont, pos: nat): (r: Option<nat>)
    ensures r.Some? ==> pos <= r.value < |l| && Filed(l[r.value].0, key)
                        && MatchP(spec, l[r.value].1.spec, Adstyle)
    ensures r.None? ==> forall i :: pos <= i < |l| ==> !(Filed(l[i].0, key) && MatchP(spec, l[i].1.spec, Adstyle))
    ensures r.Some? ==> forall i :: pos <= i < r.value ==> !(Filed(l[i].0, key) && MatchP(spec, l[i].1.spec, Adstyle))
    decreases |l| - pos
  {
    if pos >= |l| then None
    else if Filed(l[pos].0, key) && MatchP(spec, l[pos].1.spec, Adstyle) then Some(pos)
    else FirstResize(l, key, spec, pos + 1)
  }

  /** `mfont__resize`: the first entry filed under the spec's registry
      that matches the spec scales the requested size by its percentage;
      failing that, the first matching entry filed under `t`.  A `nil`
      registry is the null symbol, under which every entry counts as
      filed, so its search takes the first matching entry of the whole
      table.  The resize table is loaded on first use, and nothing but the
      size of the request changes. */
  function Resize(st: FontState, db: Option<seq<Elem>>, spec: MFont, request: MFont): (r: (FontState, MFont))
    requires StateOk(st) && FontOk(st.tables, spec)
    ensures StateOk(r.0) && Extends(st.tables, r.0.tables) && r.0.encodings == st.encodings
    ensures r.0 == EnsureResizes(st, db)
    ensures forall k :: 0 <= k < NumProps && k != Size ==> r.1[k] == request[k]
    ensures var l := EnsureResizes(st, db).resizes.value;
            var registry := Name(st.tables, spec, Registry);
            var j := FirstResize(l, registry, spec, 0);
            var jt := FirstResize(l, T, spec, 0);
            && (j.Some? ==> r.1[Size] == TruncDiv(request[Size] * l[j.value].1.resize, 100))
            && (j.None? && jt.Some? ==> r.1[Size] == TruncDiv(request[Size] * l[jt.value].1.resize, 100))
            && (j.None? && jt.None? ==> r.1 == request)
  {
    var st1 := EnsureResizes(st, db);
    var l := st1.resizes.value;
    ExtendsKeepsFont(st.tables, st1.tables, spec);
    var registry := Name(st1.tables, spec, Registry);
    if |l| == 0 then (st1, request)
    else
      var j := FirstResize(l, registry, spec, 0);
      if j.Some? then (st1, request[Size := TruncDiv(request[Size] * l[j.value].1.resize, 100)])
      else if registry == T then (st1, request)
      else
        var jt := FirstResize(l, T, spec, 0);
        if jt.Some? then (st1, request[Size := TruncDiv(request[Size] * l[jt.value].1.resize, 100)])
        else (st1, request)
  }

  // ---------------------------------------------------------------------
  // Realized fonts and character encoding

  /** A font realized on a frame.  `info` stands for the driver's opened
      font object and `status` for whether opening it succeeded (positive),
      failed (negative) or was not tried (zero).  `encoding` caches the
      result of the encoding search. */
  datatype RealizedFont = RealizedFont(
    spec: MFont, request: MFont, font: MFont, score: int, layouter: Symbol,
    driver: nat, info: nat, status: int, encoding: Option<Encoding>)

  /** The collaborators encoding a character needs: the charsets known by
      name, `ENCODE_CHAR`, the layout engine's encoder (by layouter name)
      and the font driver's encoder. */
  datatype Encoders = Encoders(
    charsets: set<Symbol>,
    encode: (Symbol, int) -> int,
    flt: (Symbol, int) -> int,
    driverEncode: (RealizedFont, int, int) -> int)

  /** The realized font's cached encoding, searched for by `key` on first
      use and cached. */
  function CachedEncoding(st: FontState, db: Option<seq<Elem>>, charsets: set<Symbol>,
                          rfont: RealizedFont, key: MFont): (r: (FontState, RealizedFont))
    requires StateOk(st) && FontOk(st.tables, key)
    ensures StateOk(r.0) && Extends(st.tables, r.0.tables)
    ensures r.1.encoding.Some? && r.1 == rfont.(encoding := r.1.encoding)
    ensures rfont.encoding.Some? ==> r == (st, rfont)
    ensures rfont.encoding.None? ==> (r.0, r.1.encoding.value) == FindEncoding(st, db, charsets, key)
  {
    if rfont.encoding.Some? then (st, rfont)
    else
      var (st1, enc) := FindEncoding(st, db, charsets, key);
      (st1, rfont.(encoding := Some(enc)))
  }

  /** `mfont__encode_char`: the code of character `c` in the realized
      font, or `InvalidCode`.  A font with a layouter asks the layout
      engine.  Otherwise the encoding charset must encode `c`; with no
      repertory the driver has the last word, else the repertory must
      also hold `c` and the encoding charset's code is the answer. */
  function EncodeChar(st: FontState, db: Option<seq<Elem>>, ops: Encoders, rfont: RealizedFont, c: int)
    : (r: (FontState, RealizedFont, int))
    requires StateOk(st) && FontOk(st.tables, rfont.font)
    ensures StateOk(r.0) && Extends(st.tables, r.0.tables)
    ensures rfont.layouter != Nil ==> r == (st, rfont, ops.flt(rfont.layouter, c))
    ensures rfont.layouter == Nil ==>
              && r.1.encoding.Some? && r.1 == rfont.(encoding := r.1.encoding)
              && (rfont.encoding.Some? ==> r.0 == st && r.1 == rfont)
              && (rfont.encoding.None? ==> (r.0, r.1.encoding.value) == FindEncoding(st, db, ops.charsets, rfont.font))
              && var enc := r.1.encoding.value;
                 && (enc.encodingCharset.None? ==> r.2 == InvalidCode)
                 && (enc.encodingCharset.Some? && ops.encode(enc.encodingCharset.value, c) == InvalidCode
                     ==> r.2 == InvalidCode)
                 && (enc.repertoryCharset.Some? && ops.encode(enc.repertoryCharset.value, c) == InvalidCode
                     ==> r.2 == InvalidCode)
                 && (r.2 != InvalidCode && enc.repertoryCharset.Some? ==>
                       r.2 == ops.encode(enc.encodingCharset.value, c))
                 && (enc.encodingCharset.Some? && enc.repertoryCharset.Some?
                     && ops.encode(enc.encodingCharset.value, c) != InvalidCode
                     && ops.encode(enc.repertoryCharset.value, c) != InvalidCode
                     ==> r.2 == ops.encode(enc.encodingCharset.value, c))
                 && (enc.encodingCharset.Some? && enc.repertoryCharset.None?
                     && ops.encode(enc.encodingCharset.value, c) != InvalidCode
                     ==> r.2 == ops.driverEncode(r.1, c, ops.encode(enc.encodingCharset.value, c)))
  {
    if rfont.layouter != Nil then (st, rfont, ops.flt(rfont.layouter, c))
    else
      var (st1, rf) := CachedEncoding(st, db, ops.charsets, rfont, rfont.font);
      var enc := rf.encoding.value;
      if enc.encodingCharset.None? then (st1, rf, InvalidCode)
      else
        var code := ops.encode(enc.encodingCharset.value, c);
        if code == InvalidCode then (st1, rf, InvalidCode)
        else if enc.repertoryCharset.None? then (st1, rf, ops.driverEncode(rf, c, code))
        else if ops.encode(enc.repertoryCharset.value, c) == InvalidCode then (st1, rf, InvalidCode)
        else (st1, rf, code)
  }

  /** `mfont__encodable_p`: 1 when `c` is encodable, 0 when not, -1 when
      the font has no repertory to decide by.  The encoding is searched by
      the realized font's spec, not its font, and shares the cache that
      `EncodeChar` fills from its font. */
  function EncodableP(st: FontState, db: Option<seq<Elem>>, ops: Encoders, rfont: RealizedFont,
                      layouterName: Symbol, c: int): (r: (FontState, RealizedFont, int))
    requires StateOk(st) && FontOk(st.tables, rfont.spec)
    ensures StateOk(r.0) && Extends(st.tables, r.0.tables)
    ensures -1 <= r.2 <= 1
    ensures layouterName != Nil ==> r.0 == st && r.1 == rfont
                                    && (r.2 == 1 <==> ops.flt(layouterName, c) != InvalidCode)
    ensures layouterName == Nil ==>
              && r.1.encoding.Some? && r.1 == rfont.(encoding := r.1.encoding)
              && (rfont.encoding.Some? ==> r.0 == st && r.1 == rfont)
              && (rfont.encoding.None? ==> (r.0, r.1.encoding.value) == FindEncoding(st, db, ops.charsets, rfont.spec))
              && var rep := r.1.encoding.value.repertoryCharset;
                 && (r.2 == -1 <==> rep.None?)
                 && (r.2 == 1 <==> rep.Some? && ops.encode(rep.value, c) != InvalidCode)
  {
    if layouterName != Nil then (st, rfont, if ops.flt(layouterName, c) != InvalidCode then 1 else 0)
    else
      var (st1, rf) := CachedEncoding(st, db, ops.charsets, rfont, rfont.spec);
      var rep := rf.encoding.value.repertoryCharset;
      if rep.None? then (st1, rf, -1)
      else (st1, rf, if ops.encode(rep.value, c) != InvalidCode then 1 else 0)
  }

  /** Once the encoding is cached, encoding a character again gives the
      same code and changes nothing. */
  lemma EncodeCharCached(st: FontState, db: Option<seq<Elem>>, ops: Encoders, rfont: RealizedFont, c: int)
    requires StateOk(st) && FontOk(st.tables, rfont.font) && rfont.layouter == Nil
    ensures var r := EncodeChar(st, db, ops, rfont, c);
            FontOk(r.0.tables, r.1.font) && EncodeChar(r.0, db, ops, r.1, c) == r
  {
    var r := EncodeChar(st, db, ops, rfont, c);
    ExtendsKeepsFont(st.tables, r.0.tables, rfont.font);
  }

  /** The two agree when they share an encoding and no layouter: a
      character the repertory rejects does not encode, and one that
      encodes through a repertory is encodable. */
  lemma EncodableAgreesWithEncode(st: FontState, db: Option<seq<Elem>>, ops: Encoders,
                                   rfont: RealizedFont, c: int)
    requires StateOk(st) && FontOk(st.tables, rfont.font) && FontOk(st.tables, rfont.spec)
    requires rfont.layouter == Nil && rfont.encoding.Some?
    ensures var e := EncodeChar(st, db, ops, rfont, c).2;
            var p := EncodableP(st, db, ops, rfont, Nil, c).2;
            && (p == 0 ==> e == InvalidCode)
            && (p == -1 <==> rfont.encoding.value.repertoryCharset.None?)
            && (e != InvalidCode && rfont.encoding.value.repertoryCharset.Some? ==> p == 1)
  {
  }

  // ---------------------------------------------------------------------
  // mfont_set_encoding

  /** Index of the first entry whose spec is exactly `font`. */
  function FirstSameSpec(l: EncodingList, font: MFont): (r: Option<nat>)
    ensures r.Some? ==> r.value < |l| && l[r.value].1.spec == font
    ensures r.Some? ==> forall i :: 0 <= i < r.value ==> l[i].1.spec != font
    ensures r.None? ==> forall i :: 0 <= i < |l| ==> l[i].1.spec != font
  {
    if |l| == 0 then None
    else if l[0].1.spec == font then Some(0)
    else var r := FirstSameSpec(l[1..], font); if r.Some? then Some(r.value + 1) else None
  }

  /** `mfont_set_encoding`: -1 when either charset name is unknown
      (`nil` repertory allowed), leaving everything as it was.  Otherwise
      the new entry goes in front of the table, filed under the font's
      registry (`nil` under `t`), and the first older entry for exactly the
      same font is dropped. */
  function SetEncoding(st: FontState, db: Option<seq<Elem>>, charsets: set<Symbol>, font: MFont,
                       encodingName: Symbol, repertoryName: Symbol): (r: (FontState, int))
    requires StateOk(st) && FontOk(st.tables, font)
    ensures StateOk(r.0) && Extends(st.tables, r.0.tables) && r.0.resizes == st.resizes
    ensures r.1 == -1 <==> encodingName !in charsets || (repertoryName != Nil && repertoryName !in charsets)
    ensures r.1 == -1 ==> r.0 == st
    ensures r.1 != -1 ==> r.1 == 0 && r.0.encodings.Some?
    ensures r.1 == 0 ==>
              var before := EnsureEncodings(st, db).encodings.value;
              var l := r.0.encodings.value;
              && |l| >= 1
              && l[0] == (NilAsT(Name(st.tables, font, Registry)), FontEncoding(font, encodingName, repertoryName))
              && var j := FirstSameSpec(before, font);
                 (if j.Some? then l[1..] == before[..j.value] + before[j.value + 1..] else l[1..] == before)
  {
    if encodingName !in charsets then (st, -1)
    else if repertoryName != Nil && repertoryName !in charsets then (st, -1)
    else
      var key := NilAsT(Name(st.tables, font, Registry));
      var st1 := EnsureEncodings(st, db);
      var l := st1.encodings.value;
      var rest := DropSameSpec(l, font);
      var l1 := [(key, FontEncoding(font, encodingName, repertoryName))] + rest;
      assert l1[1..] == rest;
      assert StateOk(st1.(encodings := Some(l1))) by {
        forall i | 1 <= i < |l1| ensures l1[i].0 != Nil {
          assert l1[i] == rest[i - 1];
        }
      }
      (st1.(encodings := Some(l1)), 0)
  }

  /** `l` without its first entry for exactly `font`. */
  function DropSameSpec(l: EncodingList, font: MFont): (r: EncodingList)
    ensures var j := FirstSameSpec(l, font);
            r == if j.Some? then l[..j.value] + l[j.value + 1..] else l
    ensures (forall i :: 0 <= i < |l| ==> l[i].0 != Nil) ==> forall i :: 0 <= i < |r| ==> r[i].0 != Nil
  {
    var j := FirstSameSpec(l, font);
    if j.Some? then
      var r := l[..j.value] + l[j.value + 1..];
      assert forall i :: 0 <= i < |r| ==> r[i] == (if i < j.value then l[i] else l[i + 1]);
      r
    else l
  }

  /** A set encoding is what the search then finds for that font: the
      new entry is first in the table and matches the font.  It is filed
      under the font's registry, or under `t` for a `nil` registry, whose
      search visits every entry. */
  lemma SetThenFind(st: FontState, db: Option<seq<Elem>>, charsets: set<Symbol>, font: MFont,
                    encodingName: Symbol, repertoryName: Symbol)
    requires StateOk(st) && FontOk(st.tables, font)
    requires encodingName in charsets && (repertoryName == Nil || repertoryName in charsets)
    ensures var (st1, _) := SetEncoding(st, db, charsets, font, encodingName, repertoryName);
            FontOk(st1.tables, font)
            && FindEncoding(st1, db, charsets, font).1 == Resolve(FontEncoding(font, encodingName, repertoryName))
  {
    var (st1, _) := SetEncoding(st, db, charsets, font, encodingName, repertoryName);
    ExtendsKeepsFont(st.tables, st1.tables, font);
    var registry := Name(st1.tables, font, Registry);
    var l := st1.encodings.value;
    assert MatchP(font, font, Adstyle);
    assert Usable(l[0], registry, font, charsets);
    assert FirstUsable(l, registry, font, charsets, 0) == Some(0);
  }
}
