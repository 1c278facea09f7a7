// adfimage_open and adfimage_close as acquisitions and releases: ADFlib, the
// device, its mount, the volume mount, and the image record.
module Resources {
  import opened PathStrings

  datatype Resource = Library | Device | DeviceMount | VolumeMount | ImageRecord

  datatype Event = Acquire(r: Resource) | Release(r: Resource)

  // What the outside decides during one adfimage_open: which calls succeed,
  // and what reading the root block of the volume yields.
  datatype Outside = Outside(library: bool, device: bool, deviceMount: bool, volumeMount: bool,
                             rootReadable: bool, bitmapValid: bool, memory: bool)

  // ------------------------------------------------------------------
  // The releases a trace calls for
  // ------------------------------------------------------------------

  // The resources held after a trace; Bad when a resource was acquired twice
  // or released without being held.
  datatype Held = Bad | Held(rs: set<Resource>)

  function HeldAfter(h: Held, e: Event): Held {
    match h
    case Bad => Bad
    case Held(rs) =>
      match e
      case Acquire(r) => if r in rs then Bad else Held(rs + {r})
      case Release(r) => if r in rs then Held(rs - {r}) else Bad
  }

  function HeldAfterAll(h: Held, es: seq<Event>): Held
    decreases |es|
  {
    if es == [] then h else HeldAfterAll(HeldAfter(h, es[0]), es[1..])
  }

  function Reverse(rs: seq<Resource>): seq<Resource> {
    if rs == [] then [] else Reverse(rs[1..]) + [rs[0]]
  }

  // ------------------------------------------------------------------
  // isBlockAllocationBitmapValid
  // ------------------------------------------------------------------

  // As written an unreadable root block yields a non-zero code, which counts
  // as true; as meant it is an invalid bitmap.
  predicate BitmapAccepted(w: Outside) {
    if !w.rootReadable then true else w.bitmapValid
  }

  predicate BitmapAcceptedMeant(w: Outside) {
    w.rootReadable && w.bitmapValid
  }

  // ------------------------------------------------------------------
  // The program's own trace, and its handle
  // ------------------------------------------------------------------

  class Program {
    var trace: seq<Event>
    // whether the image pointer is non-NULL
    var open: bool

    constructor ()
      ensures trace == [] && !open
    {
      trace := [];
      open := false;
    }

    method Emit(e: Event)
      modifies this`trace
      ensures trace == old(trace) + [e]
    {
      trace := trace + [e];
    }

    // mount_dev
    method MountDev(w: Outside) returns (ok: bool)
      modifies this`trace
      ensures ok <==> w.device && w.deviceMount
      ensures trace == old(trace) + DevEvents(w)
    {
      if !w.device {
        return false;
      }
      Emit(Acquire(Device));
      if !w.deviceMount {
        Emit(Release(Device));
        return false;
      }
      Emit(Acquire(DeviceMount));
      ok := true;
    }

    // adfimage_open with its chain of clean-up labels
    method Open(w: Outside, readOnly: bool)
      requires !open
      modifies this
      ensures trace == old(trace) + OpenEvents(w, readOnly)
      ensures open <==> Opens(w, readOnly)
    {
      if !w.library {
        return;
      }
      Emit(Acquire(Library));
      var dev := MountDev(w);
      if !dev {
        Emit(Release(Library));
        return;
      }
      if w.volumeMount {
        Emit(Acquire(VolumeMount));
        if (readOnly || BitmapAccepted(w)) && w.memory {
          Emit(Acquire(ImageRecord));
          open := true;
          return;
        }
        Emit(Release(VolumeMount));
      }
      Emit(Release(DeviceMount));
      Emit(Release(Device));
      Emit(Release(Library));
    }

    // adfimage_close: nothing happens without an image
    method Close()
      modifies this
      ensures trace == old(trace) + if old(open) then CLOSE_EVENTS else []
      ensures !open
    {
      if !open {
        return;
      }
      Emit(Release(VolumeMount));
      Emit(Release(DeviceMount));
      Emit(Release(Device));
      Emit(Release(ImageRecord));
      open := false;
      Emit(Release(Library));
    }
  }

  function DevEvents(w: Outside): seq<Event> {
    if !w.device then []
    else if !w.deviceMount then [Acquire(Device), Release(Device)]
    else [Acquire(Device), Acquire(DeviceMount)]
  }

  predicate Opens(w: Outside, readOnly: bool) {
    w.library && w.device && w.deviceMount && w.volumeMount && (readOnly || BitmapAccepted(w)) && w.memory
  }

  // What one open does, by the first thing that fails.
  function OpenEvents(w: Outside, readOnly: bool): seq<Event> {
    if !w.library then []
    else if !w.device then [Acquire(Library), Release(Library)]
    else if !w.deviceMount then [Acquire(Library), Acquire(Device), Release(Device), Release(Library)]
    else if !w.volumeMount then
      [Acquire(Library), Acquire(Device), Acquire(DeviceMount), Release(DeviceMount), Release(Device), Release(Library)]
    else if !Opens(w, readOnly) then
      [Acquire(Library), Acquire(Device), Acquire(DeviceMount), Acquire(VolumeMount),
       Release(VolumeMount), Release(DeviceMount), Release(Device), Release(Library)]
    else
      [Acquire(Library), Acquire(Device), Acquire(DeviceMount), Acquire(VolumeMount), Acquire(ImageRecord)]
  }

  const CLOSE_EVENTS: seq<Event> :=
    [Release(VolumeMount), Release(DeviceMount), Release(Device), Release(ImageRecord), Release(Library)]

  // ------------------------------------------------------------------
  // Balance
  // ------------------------------------------------------------------

  // Reading a trace one event at a time.
  lemma AfterCons(h: Held, e: Event, es: seq<Event>)
    ensures HeldAfterAll(h, [e] + es) == HeldAfterAll(HeldAfter(h, e), es)
  {
    assert ([e] + es)[1..] == es;
  }

  lemma {:induction false} AfterConcat(h: Held, a: seq<Event>, b: seq<Event>)
    ensures HeldAfterAll(h, a + b) == HeldAfterAll(HeldAfterAll(h, a), b)
    decreases |a|
  {
    if a == [] {
      assert a + b == b;
    } else {
      assert (a + b)[1..] == a[1..] + b;
      AfterConcat(HeldAfter(h, a[0]), a[1..], b);
    }
  }

  predicate AllDifferent(rs: seq<Resource>) {
    forall i, j :: 0 <= i < j < |rs| ==> rs[i] != rs[j]
  }

  function ToSet(rs: seq<Resource>): set<Resource> {
    set r | r in rs
  }

  lemma ToSetCons(rs: seq<Resource>)
    requires rs != [] && AllDifferent(rs)
    ensures ToSet(rs) == {rs[0]} + ToSet(rs[1..]) && rs[0] !in ToSet(rs[1..]) && AllDifferent(rs[1..])
  {
  }

  // Acquiring resources that are not held, one after the other.
  lemma {:induction false} AcquireAll(h: set<Resource>, more: seq<Resource>)
    requires AllDifferent(more) && h !! ToSet(more)
    ensures HeldAfterAll(Held(h), Acquires(more)) == Held(h + ToSet(more))
    decreases |more|
  {
    if more != [] {
      var r := more[0];
      ToSetCons(more);
      assert Acquires(more) == [Acquire(r)] + Acquires(more[1..]);
      AfterCons(Held(h), Acquire(r), Acquires(more[1..]));
      AcquireAll(h + {r}, more[1..]);
      assert h + {r} + ToSet(more[1..]) == h + ToSet(more);
    } else {
      assert h + ToSet(more) == h;
    }
  }

  // Releasing held resources, each once.
  lemma {:induction false} ReleaseAll(h: set<Resource>, gone: seq<Resource>)
    requires AllDifferent(gone) && ToSet(gone) <= h
    ensures HeldAfterAll(Held(h), Releases(gone)) == Held(h - ToSet(gone))
    decreases |gone|
  {
    if gone != [] {
      var r := gone[0];
      ToSetCons(gone);
      assert Releases(gone) == [Release(r)] + Releases(gone[1..]);
      AfterCons(Held(h), Release(r), Releases(gone[1..]));
      ReleaseAll(h - {r}, gone[1..]);
      assert h - {r} - ToSet(gone[1..]) == h - ToSet(gone);
    } else {
      assert h - ToSet(gone) == h;
    }
  }

  lemma {:induction false} ReverseSame(rs: seq<Resource>)
    requires AllDifferent(rs)
    ensures ToSet(Reverse(rs)) == ToSet(rs) && AllDifferent(Reverse(rs))
  {
    if rs != [] {
      ToSetCons(rs);
      ReverseSame(rs[1..]);
      assert rs[0] !in Reverse(rs[1..]) by {
        assert rs[0] !in ToSet(Reverse(rs[1..]));
      }
    }
  }

  function Acquires(rs: seq<Resource>): seq<Event> {
    seq(|rs|, i requires 0 <= i < |rs| => Acquire(rs[i]))
  }

  function Releases(rs: seq<Resource>): seq<Event> {
    seq(|rs|, i requires 0 <= i < |rs| => Release(rs[i]))
  }

  const ALL: seq<Resource> := [Library, Device, DeviceMount, VolumeMount, ImageRecord]

  // How many resources an open acquires before it fails, or all of them.
  function Stage(w: Outside, readOnly: bool): nat {
    if !w.library then 0 else if !w.device then 1 else if !w.deviceMount then 2
    else if !w.volumeMount then 3 else if !Opens(w, readOnly) then 4 else 5
  }

  // Every failing exit releases exactly what was acquired, once each and in
  // reverse order (a device that cannot be mounted is closed before its mount
  // was held); a successful open holds everything.
  lemma OpenTrace(w: Outside, readOnly: bool)
    ensures var k := Stage(w, readOnly);
            OpenEvents(w, readOnly) == Acquires(ALL[..k]) + if k == 5 then [] else Releases(Reverse(ALL[..k]))
  {
    hide Reverse, Opens, Acquires, Releases;
    var k := Stage(w, readOnly);
    BackIs(k);
    TraceOf(ALL[..k], if k == 5 then [] else BACK[5 - k..], OpenEvents(w, readOnly));
    NoReleases();
  }

  lemma TraceOf(rs: seq<Resource>, back: seq<Resource>, es: seq<Event>)
    requires |es| == |rs| + |back|
    requires forall i :: 0 <= i < |es| ==> es[i] == if i < |rs| then Acquire(rs[i]) else Release(back[i - |rs|])
    ensures es == Acquires(rs) + Releases(back)
  {
  }

  lemma NoReleases()
    ensures Releases([]) == []
  {
  }

  const BACK: seq<Resource> := [ImageRecord, VolumeMount, DeviceMount, Device, Library]

  lemma BackIs(k: nat)
    requires k <= 5
    ensures Reverse(ALL[..k]) == BACK[5 - k..]
  {
    hide Reverse;
    forall i | 0 <= i < k
      ensures BACK[5 - k..][k - 1 - i] == ALL[..k][i]
    {
      assert BACK[5 - k..][k - 1 - i] == BACK[4 - i];
      assert BACK[4 - i] == ALL[i];
    }
    ReverseOf(ALL[..k], BACK[5 - k..]);
  }

  lemma {:induction false} ReverseOf(rs: seq<Resource>, back: seq<Resource>)
    requires |rs| == |back| && forall i :: 0 <= i < |rs| ==> back[|rs| - 1 - i] == rs[i]
    ensures Reverse(rs) == back
    decreases |rs|
  {
    if rs != [] {
      var rest := back[..|back| - 1];
      assert forall i :: 0 <= i < |rs[1..]| ==> rest[|rs[1..]| - 1 - i] == rs[1..][i] by {
        assert forall i :: 0 <= i < |rs[1..]| ==> rs[1..][i] == rs[i + 1] && back[|rs| - 1 - (i + 1)] == rs[i + 1];
      }
      ReverseOf(rs[1..], rest);
    }
  }

  lemma OpenBalance(w: Outside, readOnly: bool)
    ensures HeldAfterAll(Held({}), OpenEvents(w, readOnly)) == Held(if Opens(w, readOnly) then ToSet(ALL) else {})
  {
    hide OpenEvents, HeldAfterAll, Acquires, Releases, Reverse;
    var k := Stage(w, readOnly);
    var rs := ALL[..k];
    OpenTrace(w, readOnly);
    assert AllDifferent(rs);
    AcquireAll({}, rs);
    AfterConcat(Held({}), Acquires(rs), Releases(Reverse(rs)));
    ReverseSame(rs);
    ReleaseAll(ToSet(rs), Reverse(rs));
    assert {} + ToSet(rs) == ToSet(rs) && ToSet(rs) - ToSet(rs) == {};
    assert k == 5 ==> rs == ALL && Acquires(rs) + [] == Acquires(rs);
  }

  // The order in which adfimage_close releases.
  const CLOSING: seq<Resource> := [VolumeMount, DeviceMount, Device, ImageRecord, Library]

  // A successful open followed by close leaves whatever was held before, each
  // resource acquired being released once, though not quite in reverse order:
  // the image record, acquired last, outlives the mounts.
  lemma CloseBalance(w: Outside, readOnly: bool, held: set<Resource>)
    requires Opens(w, readOnly) && held !! ToSet(ALL)
    ensures HeldAfterAll(Held(held), OpenEvents(w, readOnly) + CLOSE_EVENTS) == Held(held)
    ensures CLOSE_EVENTS == Releases(CLOSING) && ToSet(CLOSING) == ToSet(ALL) && CLOSING != Reverse(ALL)
  {
    hide HeldAfterAll, OpenEvents;
    OpenTrace(w, readOnly);
    AcquireAll(held, ALL);
    assert ALL[..5] == ALL && Acquires(ALL) + [] == Acquires(ALL);
    AfterConcat(Held(held), OpenEvents(w, readOnly), CLOSE_EVENTS);
    assert AllDifferent(CLOSING);
    assert ToSet(CLOSING) == ToSet(ALL);
    ReleaseAll(held + ToSet(ALL), CLOSING);
    assert CLOSE_EVENTS == Releases(CLOSING);
    assert held + ToSet(ALL) - ToSet(ALL) == held;
    assert Reverse(ALL) == BACK by {
      BackIs(5);
      assert ALL[..5] == ALL && BACK[0..] == BACK;
    }
  }

  lemma CloseReleases()
    ensures HeldAfterAll(Held(ToSet(ALL)), CLOSE_EVENTS) == Held({})
  {
    hide HeldAfterAll;
    assert AllDifferent(CLOSING);
    assert ToSet(CLOSING) == ToSet(ALL);
    ReleaseAll(ToSet(ALL), CLOSING);
    assert CLOSE_EVENTS == Releases(CLOSING);
  }

  // ------------------------------------------------------------------
  // Runs
  // ------------------------------------------------------------------

  datatype Call = DoOpen(w: Outside, readOnly: bool) | DoClose

  // One call of a program that opens only when nothing is open.
  function CallEvents(open: bool, c: Call): seq<Event> {
    match c
    case DoOpen(w, readOnly) => if open then [] else OpenEvents(w, readOnly)
    case DoClose => if open then CLOSE_EVENTS else []
  }

  function OpenAfter(open: bool, c: Call): bool {
    match c
    case DoOpen(w, readOnly) => open || Opens(w, readOnly)
    case DoClose => false
  }

  function RunEvents(open: bool, cs: seq<Call>): (seq<Event>, bool)
    decreases |cs|
  {
    if cs == [] then ([], open)
    else
      var (es, last) := RunEvents(OpenAfter(open, cs[0]), cs[1..]);
      (CallEvents(open, cs[0]) + es, last)
  }

  // After any run of opens and closes the resources held are all or none,
  // according to whether an image is open; none is ever acquired twice or
  // released without being held.
  lemma {:induction false} RunBalance(open: bool, cs: seq<Call>)
    ensures HeldAfterAll(Held(if open then ToSet(ALL) else {}), RunEvents(open, cs).0) ==
            Held(if RunEvents(open, cs).1 then ToSet(ALL) else {})
    decreases |cs|
  {
    if cs != [] {
      var held := Held(if open then ToSet(ALL) else {});
      var next := OpenAfter(open, cs[0]);
      hide OpenEvents, Opens, HeldAfterAll, CLOSE_EVENTS;
      assert HeldAfterAll(held, CallEvents(open, cs[0])) == Held(if next then ToSet(ALL) else {}) by {
        CallBalance(open, cs[0]);
      }
      AfterConcat(held, CallEvents(open, cs[0]), RunEvents(next, cs[1..]).0);
      RunBalance(next, cs[1..]);
    }
  }

  lemma CallBalance(open: bool, c: Call)
    ensures HeldAfterAll(Held(if open then ToSet(ALL) else {}), CallEvents(open, c)) ==
            Held(if OpenAfter(open, c) then ToSet(ALL) else {})
  {
    match c
    case DoOpen(w, readOnly) => OpenBalance(w, readOnly);
    case DoClose => CloseReleases();
  }

  // ------------------------------------------------------------------
  // The bitmap check over runs
  // ------------------------------------------------------------------

  // The open that has produced the image held after a run, if one is held.
  function Holder(held: Option<Call>, cs: seq<Call>): Option<Call>
    decreases |cs|
  {
    if cs == [] then held
    else
      match cs[0]
      case DoOpen(w, readOnly) => Holder(if held.None? && Opens(w, readOnly) then Some(cs[0]) else held, cs[1..])
      case DoClose => Holder(None, cs[1..])
  }

  // The check of a read-write open accepts the volume without a valid bitmap.
  predicate UncheckedBitmap(c: Call) {
    c.DoOpen? && !c.readOnly && !c.w.rootReadable
  }

  // After every run, an image is held iff an open has succeeded since, and one
  // held read-write has a valid bitmap or a root block that could not be read.
  lemma {:induction false} ReadWriteBitmap(held: Option<Call>, cs: seq<Call>)
    requires held.Some? ==> held.value.DoOpen? && Opens(held.value.w, held.value.readOnly)
    ensures RunEvents(held.Some?, cs).1 <==> Holder(held, cs).Some?
    ensures var h := Holder(held, cs);
            h.Some? ==>
              && h.value.DoOpen? && (h == held || h.value in cs)
              && (!h.value.readOnly && h.value.w.rootReadable ==> h.value.w.bitmapValid)
    decreases |cs|
  {
    if cs != [] {
      var next := match cs[0]
                  case DoOpen(w, readOnly) => if held.None? && Opens(w, readOnly) then Some(cs[0]) else held
                  case DoClose => None;
      assert next.Some? == OpenAfter(held.Some?, cs[0]);
      ReadWriteBitmap(next, cs[1..]);
    }
  }

  // As meant an unreadable root block refuses a read-write open.
  predicate OpensMeant(w: Outside, readOnly: bool) {
    w.library && w.device && w.deviceMount && w.volumeMount && (readOnly || BitmapAcceptedMeant(w)) && w.memory
  }

  // A read-write open of a volume whose root block cannot be read succeeds as
  // written, if nothing else fails, and is refused as meant; one whose root
  // block says that the bitmap is invalid is refused either way.
  lemma UnreadableOpens(w: Outside)
    requires w.library && w.device && w.deviceMount && w.volumeMount && w.memory
    ensures !w.rootReadable ==> Opens(w, false) && !OpensMeant(w, false)
    ensures w.rootReadable ==> (Opens(w, false) <==> w.bitmapValid) && (OpensMeant(w, false) <==> w.bitmapValid)
    ensures Opens(w, true) && OpensMeant(w, true)
  {
  }

  function OpenEventsMeant(w: Outside, readOnly: bool): seq<Event> {
    if Opens(w, readOnly) && !OpensMeant(w, readOnly) then
      [Acquire(Library), Acquire(Device), Acquire(DeviceMount), Acquire(VolumeMount),
       Release(VolumeMount), Release(DeviceMount), Release(Device), Release(Library)]
    else OpenEvents(w, readOnly)
  }

  function RunEventsMeant(open: bool, cs: seq<Call>): seq<Event>
    decreases |cs|
  {
    if cs == [] then []
    else
      match cs[0]
      case DoOpen(w, readOnly) =>
        if open then RunEventsMeant(true, cs[1..])
        else OpenEventsMeant(w, readOnly) + RunEventsMeant(OpensMeant(w, readOnly), cs[1..])
      case DoClose => (if open then CLOSE_EVENTS else []) + RunEventsMeant(false, cs[1..])
  }

  // Some read-write open of the run, called with no image held and otherwise
  // successful, meets an unreadable root block.
  predicate MeetsUnreadable(open: bool, cs: seq<Call>)
    decreases |cs|
  {
    cs != [] &&
    ((!open && UncheckedBitmap(cs[0]) && Opens(cs[0].w, false)) || MeetsUnreadable(OpenAfter(open, cs[0]), cs[1..]))
  }

  // The acquisitions and releases of a run are the meant ones exactly when it
  // meets no unreadable root block.
  lemma {:induction false} BitmapAsMeantExactly(open: bool, cs: seq<Call>)
    ensures RunEvents(open, cs).0 == RunEventsMeant(open, cs) <==> !MeetsUnreadable(open, cs)
    decreases |cs|
  {
    if cs != [] {
      var c := cs[0];
      var next := OpenAfter(open, c);
      BitmapAsMeantExactly(next, cs[1..]);
      if !open && UncheckedBitmap(c) && Opens(c.w, false) {
        FifthDiffers(c.w, RunEvents(next, cs[1..]).0, RunEventsMeant(false, cs[1..]));
      } else {
        hide OpenEvents, CLOSE_EVENTS, RunEvents;
        SamePrefix(CallEvents(open, c), RunEvents(next, cs[1..]).0, RunEventsMeant(next, cs[1..]));
      }
    }
  }

  lemma SamePrefix(a: seq<Event>, x: seq<Event>, y: seq<Event>)
    ensures a + x == a + y <==> x == y
  {
    assert (a + x)[|a|..] == x && (a + y)[|a|..] == y;
  }

  lemma FifthDiffers(w: Outside, x: seq<Event>, y: seq<Event>)
    requires Opens(w, false) && !w.rootReadable
    ensures OpenEvents(w, false) + x != OpenEventsMeant(w, false) + y
  {
    assert (OpenEvents(w, false) + x)[4] == Acquire(ImageRecord);
    assert (OpenEventsMeant(w, false) + y)[4] == Release(VolumeMount);
  }
}
