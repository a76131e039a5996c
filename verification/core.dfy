/** The managed-object reference counter, the nesting counter of the core
    initialisation, and the debug registry of live objects (m17n-core.c). */
module Core {

  import opened Plist

  /** Size of the 16-bit reference count kept in every object header. */
  const Count16: nat := 0x10000

  /** Largest value of one 32-bit word of the extended counter. */
  const WordMax: nat := 0xFFFF_FFFF

  /** Radix of the extended counter: its words are 32-bit unsigned. */
  const Radix: nat := 0x1_0000_0000

  /** How an object is released when its count reaches zero: by `free`,
      or by the freer function given to `m17n_object`. */
  datatype Freer = PlainFree | CustomFreer(id: nat)

  /** A managed object header.  While `extended` is false the count lives in
      the 16-bit `refCount`; once that wraps, `refCount` stays 0 and the
      count beyond 0xFFFF lives in `words`, least significant word first. */
  datatype ManagedObject = ManagedObject(
    refCount: nat,
    extended: bool,
    words: seq<nat>,
    freer: Freer)

  /** Value of a little-endian sequence of 32-bit words. */
  function WordsValue(w: seq<nat>): nat
  {
    if |w| == 0 then 0 else w[0] + Radix * WordsValue(w[1..])
  }

  ghost predicate WordsOk(w: seq<nat>)
  {
    forall i :: 0 <= i < |w| ==> w[i] <= WordMax
  }

  /** The header invariant every live object keeps between calls. */
  ghost predicate Live(o: ManagedObject)
  {
    && o.refCount < Count16
    && WordsOk(o.words)
    && (!o.extended ==> o.refCount >= 1 && o.words == [])
    && (o.extended ==>
          && o.refCount == 0
          && |o.words| >= 1
          && o.words[|o.words| - 1] < WordMax
          && WordsValue(o.words) >= 1)
  }

  /** Number of references the header stands for. */
  function Total(o: ManagedObject): nat
  {
    if o.extended then 0xFFFF + WordsValue(o.words) else o.refCount
  }

  /** `m17n_object`: a fresh object holds exactly one reference. */
  function NewObject(freer: Freer): (o: ManagedObject)
    ensures Live(o) && Total(o) == 1 && !o.extended && o.freer == freer
  {
    ManagedObject(1, false, [], freer)
  }

  /** Position of the first word below 0xFFFFFFFF: where the carry of an
      increment stops. */
  function FirstBelowMax(w: seq<nat>): (k: nat)
    requires |w| >= 1 && WordsOk(w) && w[|w| - 1] < WordMax
    ensures k < |w| && w[k] < WordMax
    ensures forall i :: 0 <= i < k ==> w[i] == WordMax
  {
    if w[0] < WordMax then 0
    else
      assert w[1..][|w[1..]| - 1] == w[|w| - 1];
      var k := FirstBelowMax(w[1..]);
      assert forall i :: 1 <= i <= k ==> w[i] == w[1..][i - 1];
      1 + k
  }

  /** The carry loop of the extended increment: words equal to 0xFFFFFFFF
      become 0 and the first smaller word is incremented. */
  function IncWords(w: seq<nat>): (r: seq<nat>)
    requires |w| >= 1 && WordsOk(w) && w[|w| - 1] < WordMax
    ensures |r| == |w| && WordsOk(r)
    ensures WordsValue(r) == WordsValue(w) + 1
    ensures r[FirstBelowMax(w)] == w[FirstBelowMax(w)] + 1
    ensures forall j :: FirstBelowMax(w) < j < |w| ==> r[j] == w[j]
  {
    if w[0] == WordMax then
      assert w[1..][|w[1..]| - 1] == w[|w| - 1];
      var rest := IncWords(w[1..]);
      assert ([0] + rest)[1..] == rest;
      [0] + rest
    else
      assert ([w[0] + 1] + w[1..])[1..] == w[1..];
      [w[0] + 1] + w[1..]
  }

  /** The whole extended increment: when the incremented word reaches
      0xFFFFFFFF a zero word is appended, so the next carry has a word to
      land in. */
  function ExtendedInc(w: seq<nat>): (r: seq<nat>)
    requires |w| >= 1 && WordsOk(w) && w[|w| - 1] < WordMax
    ensures |r| >= 1 && WordsOk(r) && r[|r| - 1] < WordMax
    ensures WordsValue(r) == WordsValue(w) + 1
  {
    var k := FirstBelowMax(w);
    var r := IncWords(w);
    if r[k] == WordMax then
      AppendZeroKeepsValue(r);
      r + [0]
    else r
  }

  lemma {:induction false} AppendZeroKeepsValue(w: seq<nat>)
    ensures WordsValue(w + [0]) == WordsValue(w)
    decreases |w|
  {
    if |w| == 0 {
      assert [0][1..] == [];
    } else {
      assert (w + [0])[1..] == w[1..] + [0];
      AppendZeroKeepsValue(w[1..]);
    }
  }

  /** The borrow loop of the extended decrement: zero words become
      0xFFFFFFFF and the first nonzero word is decremented. */
  function DecWords(w: seq<nat>): (r: seq<nat>)
    requires WordsOk(w) && WordsValue(w) >= 1
    ensures |r| == |w| && WordsOk(r)
    ensures WordsValue(r) == WordsValue(w) - 1
    ensures |w| >= 1 && w[|w| - 1] < WordMax ==> r[|r| - 1] < WordMax
  {
    if w[0] == 0 then
      assert WordsValue(w[1..]) >= 1;
      assert w[1..][|w[1..]| - 1] == w[|w| - 1];
      var rest := DecWords(w[1..]);
      assert ([WordMax] + rest)[1..] == rest;
      [WordMax] + rest
    else
      assert ([w[0] - 1] + w[1..])[1..] == w[1..];
      [w[0] - 1] + w[1..]
  }

  /** `m17n_object_ref`: returns the new count while it fits in 16 bits,
      and -1 once the count has spilled into the extended counter. */
  function ObjectRef(o: ManagedObject): (res: (ManagedObject, int))
    requires Live(o)
    ensures Live(res.0) && res.0.freer == o.freer
    ensures Total(res.0) == Total(o) + 1
    ensures res.1 == (if Total(res.0) < Count16 then Total(res.0) else -1)
  {
    if !o.extended then
      var n := (o.refCount + 1) % Count16;
      if n != 0 then (o.(refCount := n), n)
      else (ManagedObject(0, true, ExtendedInc([0]), o.freer), -1)
    else
      (o.(words := ExtendedInc(o.words)), -1)
  }

  /** What `m17n_object_unref` did with the object. */
  datatype Release = Kept | FreedBy(freer: Freer)

  /** `m17n_object_unref` as written: in extended mode it returns to the
      16-bit count as soon as the LOW word of the extended counter is zero,
      whatever the higher words hold. */
  function ObjectUnrefAsWritten(o: ManagedObject): (res: (ManagedObject, int, Release))
    requires Live(o)
    ensures !o.extended ==> Total(res.0) == Total(o) - 1 && res.1 == Total(res.0)
    ensures !o.extended ==> (res.2.FreedBy? <==> Total(res.0) == 0)
    ensures res.2.FreedBy? ==> res.2.freer == o.freer
    ensures o.extended ==> res.1 == -1 && res.2 == Kept
    ensures o.extended && |o.words| == 1 ==> Live(res.0) && Total(res.0) == Total(o) - 1
  {
    if !o.extended then
      var n := o.refCount - 1;
      if n == 0 then (o.(refCount := 0), 0, FreedBy(o.freer))
      else (o.(refCount := n), n, Kept)
    else
      var w := DecWords(o.words);
      if w[0] == 0 then
        (ManagedObject(Count16 - 1, false, [], o.freer), -1, Kept)
      else
        (o.(words := w), -1, Kept)
  }

  /** Four billion and one references past the 16-bit range: the low word
      is 1 and the next word is 1.  One unref drops the object back to
      0xFFFF references, losing 2^32 of them. */
  lemma UnrefAsWrittenLosesHighWords()
    ensures var o := ManagedObject(0, true, [1, 1], PlainFree);
            Live(o) && Total(o) == 0xFFFF + 1 + Radix
            && Total(ObjectUnrefAsWritten(o).0) == 0xFFFF
  {
    var o := ManagedObject(0, true, [1, 1], PlainFree);
    assert o.words[1..] == [1];
    assert o.words[1..][1..] == [];
    assert DecWords(o.words) == [0, 1];
  }

  /** `m17n_object_unref` with the revert condition the extended counter
      evidently needs: leave extended mode only when the whole counter,
      not just its low word, has reached zero. */
  function ObjectUnref(o: ManagedObject): (res: (ManagedObject, int, Release))
    requires Live(o)
    ensures Live(res.0) || (res.2.FreedBy? && Total(res.0) == 0)
    ensures res.0.freer == o.freer
    ensures Total(res.0) == Total(o) - 1
    ensures res.1 == (if o.extended then -1 else Total(res.0))
    ensures res.2.FreedBy? <==> Total(res.0) == 0
    ensures res.2.FreedBy? ==> res.2.freer == o.freer
  {
    if !o.extended then
      var n := o.refCount - 1;
      if n == 0 then (o.(refCount := 0), 0, FreedBy(o.freer))
      else (o.(refCount := n), n, Kept)
    else
      var w := DecWords(o.words);
      if WordsValue(w) == 0 then
        (ManagedObject(Count16 - 1, false, [], o.freer), -1, Kept)
      else
        (o.(words := w), -1, Kept)
  }

  /** A reference taken and dropped again leaves the count where it was
      and never frees the object. */
  lemma RefThenUnref(o: ManagedObject)
    requires Live(o)
    ensures var u := ObjectUnref(ObjectRef(o).0);
            Total(u.0) == Total(o) && u.2 == Kept && Live(u.0)
  {
  }

  /** `m17n_init_core`: only the call that finds the counter at zero
      initialises the core modules; every call increments the counter. */
  function InitCore(n: nat): (res: (nat, bool))
    ensures res.0 == n + 1
    ensures res.1 <==> n == 0
  {
    (n + 1, n == 0)
  }

  /** `m17n_fini_core`: tears the core down when the counter is at most 1,
      otherwise only decrements it. */
  function FiniCore(n: nat): (res: (nat, bool))
    ensures res.1 <==> n <= 1
    ensures res.0 == (if n <= 1 then 0 else n - 1)
  {
    if n > 1 then (n - 1, false) else (0, true)
  }

  /** `k` nested initialisations: the counter value and how many of them
      actually initialised. */
  function InitTimes(n: nat, k: nat): (nat, nat)
    decreases k
  {
    if k == 0 then (n, 0)
    else
      var (n1, did) := InitCore(n);
      var (n2, c) := InitTimes(n1, k - 1);
      (n2, c + (if did then 1 else 0))
  }

  /** `k` nested finalisations: the counter value and how many tore down. */
  function FiniTimes(n: nat, k: nat): (nat, nat)
    decreases k
  {
    if k == 0 then (n, 0)
    else
      var (n1, did) := FiniCore(n);
      var (n2, c) := FiniTimes(n1, k - 1);
      (n2, c + (if did then 1 else 0))
  }

  lemma {:induction false} InitTimesCount(n: nat, k: nat)
    ensures InitTimes(n, k) == (n + k, if n == 0 && k > 0 then 1 else 0)
    decreases k
  {
    if k > 0 {
      InitTimesCount(n + 1, k - 1);
    }
  }

  lemma {:induction false} FiniTimesCount(n: nat, k: nat)
    requires 1 <= k <= n
    ensures FiniTimes(n, k) == (n - k, if k == n then 1 else 0)
    decreases k
  {
    if k > 1 {
      FiniTimesCount(n - 1, k - 1);
    }
  }

  /** Balanced nesting: `k` initialisations followed by `k` finalisations
      initialise once, tear down once (on the last call) and leave the
      counter at zero. */
  lemma BalancedInitFini(k: nat)
    requires k >= 1
    ensures InitTimes(0, k) == (k, 1)
    ensures FiniTimes(k, k - 1) == (1, 0)
    ensures FiniTimes(k, k) == (0, 1)
  {
    InitTimesCount(0, k);
    FiniTimesCount(k, k);
    if k > 1 {
      FiniTimesCount(k, k - 1);
    }
  }

  /** The debug registry of one object type: `count` live objects and the
      slots of every object ever registered, freed ones set to null. */
  datatype ObjectArray = ObjectArray(count: int, objects: seq<Option<nat>>)

  function LiveSlots(s: seq<Option<nat>>): nat
  {
    if |s| == 0 then 0 else LiveSlots(s[..|s| - 1]) + (if s[|s| - 1].Some? then 1 else 0)
  }

  /** The registry is consistent when `count` equals its non-null slots. */
  ghost predicate Consistent(a: ObjectArray)
  {
    a.count == LiveSlots(a.objects)
  }

  /** `mdebug__register_object`. */
  function RegisterObject(a: ObjectArray, obj: nat): (r: ObjectArray)
    ensures r.count == a.count + 1
    ensures |r.objects| == |a.objects| + 1
    ensures r.objects[..|a.objects|] == a.objects && r.objects[|a.objects|] == Some(obj)
    ensures Consistent(a) ==> Consistent(r)
  {
    var r := ObjectArray(a.count + 1, a.objects + [Some(obj)]);
    assert r.objects[..|r.objects| - 1] == a.objects;
    r
  }

  function FirstSlot(s: seq<Option<nat>>, obj: nat): (r: nat)
    ensures r <= |s|
    ensures r < |s| ==> s[r] == Some(obj)
    ensures forall i :: 0 <= i < r ==> s[i] != Some(obj)
  {
    if |s| == 0 then 0
    else if s[0] == Some(obj) then 0
    else 1 + FirstSlot(s[1..], obj)
  }

  lemma {:induction false} LiveSlotsClear(s: seq<Option<nat>>, i: nat)
    requires i < |s| && s[i].Some?
    ensures LiveSlots(s[i := None]) + 1 == LiveSlots(s)
    decreases |s|
  {
    if i == |s| - 1 {
      assert s[i := None][..|s| - 1] == s[..|s| - 1];
    } else {
      assert s[i := None][..|s| - 1] == s[..|s| - 1][i := None];
      LiveSlotsClear(s[..|s| - 1], i);
    }
  }

  /** `mdebug__unregister_object`: returns the new registry and whether the
      debug hook fires, which happens exactly when the count would go
      negative or the object was never registered. */
  function UnregisterObject(a: ObjectArray, obj: nat): (res: (ObjectArray, bool))
    ensures res.0.count == a.count - 1
    ensures res.1 <==> (a.count - 1 < 0 || Some(obj) !in a.objects)
    ensures !res.1 ==> Some(obj) !in a.objects[..FirstSlot(a.objects, obj)]
    ensures !res.1 ==> res.0.objects == a.objects[FirstSlot(a.objects, obj) := None]
    ensures res.1 ==> res.0.objects == a.objects
    ensures Consistent(a) && !res.1 ==> Consistent(res.0)
  {
    var c := a.count - 1;
    if c >= 0 then
      var i := FirstSlot(a.objects, obj);
      if i < |a.objects| then
        LiveSlotsClear(a.objects, i);
        (ObjectArray(c, a.objects[i := None]), false)
      else
        (ObjectArray(c, a.objects), true)
    else
      (ObjectArray(c, a.objects), true)
  }

  /** An object registered into a consistent registry can be unregistered
      without firing the hook, which restores the live count. */
  lemma RegisterThenUnregister(a: ObjectArray, obj: nat)
    requires Consistent(a) && a.count >= 0
    ensures var u := UnregisterObject(RegisterObject(a, obj), obj);
            !u.1 && u.0.count == a.count && Consistent(u.0)
  {
    var r := RegisterObject(a, obj);
    assert r.objects[|a.objects|] == Some(obj);
  }
}
