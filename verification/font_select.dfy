/** Font selection on a frame (`mfont__select`) and opening a realized
    font (`mfont__open`).  A frame keeps the fonts realized on it in a
    list keyed by registry; the font drivers are parameters. */
module FontSelect {

  import opened Plist
  import opened FontProps
  import opened FontTables

  /** A frame's realized-font list: each font filed under its registry. */
  type FrameFonts = seq<(Symbol, RealizedFont)>

  /** What the drivers answer for a spec, a request and a size limit: one
      slot per driver, None when the slot has no driver or no font. */
  type DriverSelect = (MFont, MFont, int) -> seq<Option<RealizedFont>>

  /** What a driver's `open` does to a realized font, and its result. */
  type DriverOpen = RealizedFont -> (RealizedFont, int)

  /** The slot whose candidate wins: the first of the highest score. */
  function BestIndex(cands: seq<Option<RealizedFont>>): (r: Option<nat>)
    ensures r.None? <==> forall i :: 0 <= i < |cands| ==> cands[i].None?
    ensures r.Some? ==> r.value < |cands| && cands[r.value].Some?
    ensures r.Some? ==> forall i :: 0 <= i < |cands| && cands[i].Some?
                          ==> cands[i].value.score <= cands[r.value].value.score
    ensures r.Some? ==> forall i :: 0 <= i < r.value && cands[i].Some?
                          ==> cands[i].value.score < cands[r.value].value.score
  {
    if |cands| == 0 then None
    else
      var init := cands[..|cands| - 1];
      var b := BestIndex(init);
      var last := |cands| - 1;
      assert forall i :: 0 <= i < last ==> init[i] == cands[i];
      if cands[last].Some? && (b.None? || cands[b.value].value.score < cands[last].value.score)
      then Some(last)
      else b
  }

  /** Index of the first frame font filed under `key` realized for
      exactly this spec and request. */
  function FirstCached(frame: FrameFonts, key: Symbol, spec: MFont, request: MFont): (r: Option<nat>)
    ensures r.Some? ==> r.value < |frame| && frame[r.value].0 == key
                        && frame[r.value].1.spec == spec && frame[r.value].1.request == request
    ensures r.Some? ==> forall i :: 0 <= i < r.value ==>
                          !(frame[i].0 == key && frame[i].1.spec == spec && frame[i].1.request == request)
    ensures r.None? ==> forall i :: 0 <= i < |frame| ==>
                          !(frame[i].0 == key && frame[i].1.spec == spec && frame[i].1.request == request)
  {
    if |frame| == 0 then None
    else if frame[0].0 == key && frame[0].1.spec == spec && frame[0].1.request == request then Some(0)
    else var r := FirstCached(frame[1..], key, spec, request); if r.Some? then Some(r.value + 1) else None
  }

  /** `mfont__select`.  A font already realized on the frame for the same
      registry (`nil` filed as `t`), spec and request is reused; if it was
      realized for another layouter, a copy for this layouter is appended
      to the frame and returned.  Otherwise every driver is asked and the
      candidate with the highest score, the first among equals, gets the
      layouter and is appended to the frame. */
  function Select(frame: FrameFonts, tables: PropTables, spec: MFont, request: MFont,
                  limitedSize: int, layouter: Symbol, drivers: DriverSelect)
    : (r: (FrameFonts, Option<RealizedFont>))
    requires FontOk(tables, spec)
    ensures var key := NilAsT(Name(tables, spec, Registry));
            var hit := FirstCached(frame, key, spec, request);
            && (hit.Some? && frame[hit.value].1.layouter == layouter ==> r == (frame, Some(frame[hit.value].1)))
            && (hit.Some? && frame[hit.value].1.layouter != layouter ==>
                  var copy := frame[hit.value].1.(layouter := layouter);
                  r == (frame + [(key, copy)], Some(copy)))
            && (hit.None? ==>
                  var cands := drivers(spec, request, limitedSize);
                  var best := BestIndex(cands);
                  && (best.None? ==> r == (frame, None))
                  && (best.Some? ==>
                        var font := cands[best.value].value.(layouter := layouter);
                        r == (frame + [(key, font)], Some(font))))
  {
    var key := NilAsT(Name(tables, spec, Registry));
    var hit := FirstCached(frame, key, spec, request);
    if hit.Some? then
      var cached := frame[hit.value].1;
      if cached.layouter != layouter then
        var copy := cached.(layouter := layouter);
        (frame + [(key, copy)], Some(copy))
      else (frame, Some(cached))
    else
      var cands := drivers(spec, request, limitedSize);
      var best := BestIndex(cands);
      if best.None? then (frame, None)
      else
        var font := cands[best.value].value.(layouter := layouter);
        (frame + [(key, font)], Some(font))
  }

  /** The drivers return fonts realized for the spec and request asked. */
  ghost predicate DriversKeepKey(drivers: DriverSelect, spec: MFont, request: MFont, limitedSize: int)
  {
    var cands := drivers(spec, request, limitedSize);
    forall i :: 0 <= i < |cands| && cands[i].Some? ==>
      cands[i].value.spec == spec && cands[i].value.request == request
  }

  /** A font the drivers selected is found in the frame the next time:
      selecting again with the same arguments returns it and leaves the
      frame as it is. */
  lemma SelectThenCached(frame: FrameFonts, tables: PropTables, spec: MFont, request: MFont,
                         limitedSize: int, layouter: Symbol, drivers: DriverSelect)
    requires FontOk(tables, spec) && DriversKeepKey(drivers, spec, request, limitedSize)
    requires FirstCached(frame, NilAsT(Name(tables, spec, Registry)), spec, request).None?
    ensures var r := Select(frame, tables, spec, request, limitedSize, layouter, drivers);
            r.1.Some? ==> Select(r.0, tables, spec, request, limitedSize, layouter, drivers) == (r.0, r.1)
  {
    var key := NilAsT(Name(tables, spec, Registry));
    var r := Select(frame, tables, spec, request, limitedSize, layouter, drivers);
    if r.1.Some? {
      assert r.0[|frame|] == (key, r.1.value);
      var hit := FirstCached(r.0, key, spec, request);
      assert forall i :: 0 <= i < |frame| ==> r.0[i] == frame[i];
      assert hit == Some(|frame|);
    }
  }

  /** The cache search stops at the first matching font whatever its
      layouter, so a font realized for one layouter and asked for with
      another gains a fresh copy on every request: the frame grows by one
      each time. */
  lemma SelectCopiesEachTime(frame: FrameFonts, tables: PropTables, spec: MFont, request: MFont,
                             limitedSize: int, layouter: Symbol, drivers: DriverSelect)
    requires FontOk(tables, spec)
    requires var hit := FirstCached(frame, NilAsT(Name(tables, spec, Registry)), spec, request);
             hit.Some? && frame[hit.value].1.layouter != layouter
    ensures var r1 := Select(frame, tables, spec, request, limitedSize, layouter, drivers);
            var r2 := Select(r1.0, tables, spec, request, limitedSize, layouter, drivers);
            |r1.0| == |frame| + 1 && |r2.0| == |frame| + 2 && r2.1 == r1.1
  {
    var key := NilAsT(Name(tables, spec, Registry));
    var hit := FirstCached(frame, key, spec, request);
    var r1 := Select(frame, tables, spec, request, limitedSize, layouter, drivers);
    assert forall i :: 0 <= i < |frame| ==> r1.0[i] == frame[i];
    assert FirstCached(r1.0, key, spec, request) == hit;
  }

  /** Index of the first frame font already opened (or refused) under
      `registry` for exactly `font`. */
  function FirstOpened(frame: FrameFonts, registry: Symbol, font: MFont): (r: Option<nat>)
    ensures r.Some? ==> r.value < |frame| && frame[r.value].1.status != 0
                        && frame[r.value].0 == registry && frame[r.value].1.font == font
    ensures r.None? ==> forall i :: 0 <= i < |frame| ==>
                          !(frame[i].1.status != 0 && frame[i].0 == registry && frame[i].1.font == font)
  {
    if |frame| == 0 then None
    else if frame[0].1.status != 0 && frame[0].0 == registry && frame[0].1.font == font then Some(0)
    else var r := FirstOpened(frame[1..], registry, font); if r.Some? then Some(r.value + 1) else None
  }

  /** `mfont__open`: a font the frame has already tried to open, under
      the same registry, lends its opened object and status (0 for a
      success, -1 for a failure); otherwise the driver opens it. */
  function Open(frame: FrameFonts, tables: PropTables, rfont: RealizedFont, driverOpen: DriverOpen)
    : (r: (RealizedFont, int))
    requires FontOk(tables, rfont.font)
    ensures var i := FirstOpened(frame, Name(tables, rfont.font, Registry), rfont.font);
            && (i.Some? ==> r.0 == rfont.(info := frame[i.value].1.info, status := frame[i.value].1.status)
                            && (r.1 == 0 <==> r.0.status > 0) && (r.1 != 0 ==> r.1 == -1))
            && (i.None? ==> r == driverOpen(rfont))
  {
    var i := FirstOpened(frame, Name(tables, rfont.font, Registry), rfont.font);
    if i.Some? then
      var other := frame[i.value].1;
      (rfont.(info := other.info, status := other.status), if other.status > 0 then 0 else -1)
    else driverOpen(rfont)
  }

  /** Selection files fonts under `t` when their registry is `nil`, but
      opening looks under the registry itself: a `nil`-registry font never
      shares another's opened object. */
  lemma OpenNilRegistryUnshared(frame: FrameFonts, tables: PropTables, rfont: RealizedFont, driverOpen: DriverOpen)
    requires FontOk(tables, rfont.font) && Name(tables, rfont.font, Registry) == Nil
    requires forall i :: 0 <= i < |frame| ==> frame[i].0 != Nil
    ensures Open(frame, tables, rfont, driverOpen) == driverOpen(rfont)
  {
    assert FirstOpened(frame, Nil, rfont.font).None?;
  }
}
