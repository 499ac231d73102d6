/** Reference-counted handles (lib/Value.cc, lib/Recorder.cc, lib/PacketReader.cc). */
module Handles {

  datatype Kind = OfValue | OfRecorder | OfReader

  /** Where a handle points; a wild pointer was never initialised or has been followed from null. */
  datatype Pointer = Null | Wild | To(p: nat)

  datatype HandleState = HandleState(kind: Kind, alive: bool, bv: Pointer)

  /** deleted counts the delete operations on the payload. */
  datatype PayloadState = PayloadState(refcount: int, deleted: int)

  datatype Memory = Memory(handles: seq<HandleState>, payloads: seq<PayloadState>)

  datatype Event =
    | NewPayload
    | NewHandle(kind: Kind)
    | Manage(kind: Kind, p: nat)
    | Copy(j: nat)
    | Assign(i: nat, j: nat)
    | Destroy(i: nat)

  function Retain(ps: seq<PayloadState>, p: Pointer): seq<PayloadState>
    requires p.To? ==> p.p < |ps|
    ensures |Retain(ps, p)| == |ps|
  {
    if p.To? then ps[p.p := ps[p.p].(refcount := ps[p.p].refcount + 1)] else ps
  }

  function Release(ps: seq<PayloadState>, p: Pointer): seq<PayloadState>
    requires p.To? ==> p.p < |ps|
    ensures |Release(ps, p)| == |ps|
  {
    if p.To? then
      var n := ps[p.p].refcount - 1;
      ps[p.p := PayloadState(n, if n == 0 then ps[p.p].deleted + 1 else ps[p.p].deleted)]
    else ps
  }

  /** What C++ demands: objects in their lifetime, and operands of one class. */
  predicate Legal(m: Memory, e: Event) {
    (forall i :: 0 <= i < |m.handles| && m.handles[i].bv.To? ==> m.handles[i].bv.p < |m.payloads|) &&
    match e
    case NewPayload => true
    case NewHandle(_) => true
    case Manage(_, p) => p < |m.payloads| && m.payloads[p].deleted == 0
    case Copy(j) => j < |m.handles| && m.handles[j].alive
    case Assign(i, j) => i < |m.handles| && j < |m.handles| && m.handles[i].alive && m.handles[j].alive &&
                         m.handles[i].kind == m.handles[j].kind
    case Destroy(i) => i < |m.handles| && m.handles[i].alive
  }

  function Next(m: Memory, e: Event): Memory
    requires Legal(m, e)
  {
    match e
    case NewPayload => m.(payloads := m.payloads + [PayloadState(0, 0)])
    case NewHandle(k) => m.(handles := m.handles + [HandleState(k, true, Null)])
    case Manage(k, p) =>
      if k == OfReader && m.payloads[p].refcount > 0 then m
      else Memory(m.handles + [HandleState(k, true, To(p))], m.payloads[p := m.payloads[p].(refcount := 1)])
    case Copy(j) =>
      var o := m.handles[j];
      if o.bv == Null then m.(handles := m.handles + [o.(bv := Wild)])
      else Memory(m.handles + [o], Retain(m.payloads, o.bv))
    case Assign(i, j) =>
      var h, o := m.handles[i], m.handles[j];
      if h.kind == OfRecorder && o.bv == Null then m
      else Memory(m.handles[i := h.(bv := o.bv)], Release(Retain(m.payloads, o.bv), h.bv))
    case Destroy(i) =>
      var h := m.handles[i];
      Memory(m.handles[i := h.(alive := false)], Release(m.payloads, h.bv))
  }

  // ----- the objects -----

  class Payload {
    ghost const id: nat
    var refcount: int
    var deleted: int

    constructor (ghost n: nat)
      ensures id == n && refcount == 0 && deleted == 0
    {
      id, refcount, deleted := n, 0, 0;
    }

    ghost function State(): PayloadState
      reads this
    {
      PayloadState(refcount, deleted)
    }
  }

  class Handle {
    const kind: Kind
    var alive: bool
    var wild: bool
    var bv: Payload?

    ghost function State(): HandleState
      reads this
    {
      HandleState(kind, alive, if wild then Wild else if bv == null then Null else To(bv.id))
    }

    constructor (k: Kind)
      ensures kind == k && alive && !wild && bv == null
    {
      kind, alive, wild, bv := k, true, false, null;
    }

    constructor Manage(k: Kind, b: Payload)
      modifies b`refcount
      ensures kind == k && alive && !wild && bv == b && b.refcount == 1
    {
      kind, alive, wild, bv := k, true, false, b;
      b.refcount := 1;
    }

    constructor Copy(other: Handle)
      requires !other.wild
      modifies other.bv
      ensures kind == other.kind && alive && bv == other.bv && (wild <==> bv == null)
      ensures bv != null ==>
                bv.refcount == old(other.bv.refcount) + 1 && bv.deleted == old(other.bv.deleted)
    {
      kind, alive, wild, bv := other.kind, true, other.bv == null, other.bv;
      new;
      if bv != null {
        bv.refcount := bv.refcount + 1;
      }
    }

    /** operator=; false stands for the exception of the recorder. */
    method Assign(other: Handle) returns (ok: bool)
      requires !wild && !other.wild && kind == other.kind
      modifies this`bv, this.bv, other.bv
      ensures ok <==> !(kind == OfRecorder && old(other.bv) == null)
      ensures bv == if ok then old(other.bv) else old(bv)
      ensures forall p: Payload :: allocated(p) && old(allocated(p)) ==>
                p.refcount == old(p.refcount) + (if ok && p == old(other.bv) then 1 else 0)
                                              - (if ok && p == old(bv) then 1 else 0)
      ensures forall p: Payload :: allocated(p) && old(allocated(p)) ==>
                p.deleted == old(p.deleted) + (if ok && p == old(bv) && p.refcount == 0 then 1 else 0)
    {
      if kind == OfRecorder && other.bv == null {
        return false;
      }
      if other.bv != null {
        other.bv.refcount := other.bv.refcount + 1;
      }
      if bv != null {
        bv.refcount := bv.refcount - 1;
        if bv.refcount == 0 {
          bv.deleted := bv.deleted + 1;
        }
      }
      bv := other.bv;
      ok := true;
    }

    method Destroy()
      requires !wild
      modifies this`alive, bv
      ensures !alive
      ensures bv != null ==> bv.refcount == old(bv.refcount) - 1 &&
                             bv.deleted == old(bv.deleted) + (if bv.refcount == 0 then 1 else 0)
    {
      alive := false;
      if bv == null {
        return;
      }
      bv.refcount := bv.refcount - 1;
      if bv.refcount == 0 {
        bv.deleted := bv.deleted + 1;
      }
    }
  }

  /** All handles and payloads of a program, in the order of their creation. */
  class Program {
    var handles: seq<Handle>
    var payloads: seq<Payload>

    ghost predicate Valid()
      reads this, handles, payloads
    {
      (forall i, j :: 0 <= i < j < |handles| ==> handles[i] != handles[j]) &&
      (forall p :: 0 <= p < |payloads| ==> payloads[p].id == p) &&
      (forall i :: 0 <= i < |handles| && handles[i].bv != null ==>
         handles[i].bv.id < |payloads| && payloads[handles[i].bv.id] == handles[i].bv)
    }

    ghost function View(): Memory
      reads this, handles, payloads
    {
      Memory(seq(|handles|, i requires 0 <= i < |handles| reads this, handles => handles[i].State()),
             seq(|payloads|, p requires 0 <= p < |payloads| reads this, payloads => payloads[p].State()))
    }

    constructor ()
      ensures Valid() && View() == Memory([], [])
    {
      handles, payloads := [], [];
    }

    method NewPayload()
      requires Valid()
      modifies this
      ensures Valid() && View() == Next(old(View()), Event.NewPayload)
    {
      var b := new Payload(|payloads|);
      payloads := payloads + [b];
    }

    method NewHandle(k: Kind)
      requires Valid()
      modifies this
      ensures Valid() && View() == Next(old(View()), Event.NewHandle(k))
    {
      var h := new Handle(k);
      handles := handles + [h];
    }

    /** A handle for a plain pointer; the packet reader's constructor looks at the count first. */
    method Manage(k: Kind, p: nat)
      requires Valid() && Legal(View(), Event.Manage(k, p))
      modifies this, payloads
      ensures Valid() && View() == Next(old(View()), Event.Manage(k, p))
    {
      if k == OfReader && payloads[p].refcount > 0 {
        return;
      }
      var h := new Handle.Manage(k, payloads[p]);
      handles := handles + [h];
    }

    method Copy(j: nat)
      requires Valid() && Legal(View(), Event.Copy(j)) && View().handles[j].bv != Wild
      modifies this, payloads
      ensures Valid() && View() == Next(old(View()), Event.Copy(j))
    {
      var h := new Handle.Copy(handles[j]);
      handles := handles + [h];
    }

    method Assign(i: nat, j: nat)
      requires Valid() && Legal(View(), Event.Assign(i, j))
      requires View().handles[i].bv != Wild && View().handles[j].bv != Wild
      modifies handles, payloads
      ensures Valid() && View() == Next(old(View()), Event.Assign(i, j))
    {
      var _ := handles[i].Assign(handles[j]);
    }

    method Destroy(i: nat)
      requires Valid() && Legal(View(), Event.Destroy(i)) && View().handles[i].bv != Wild
      modifies handles, payloads
      ensures Valid() && View() == Next(old(View()), Event.Destroy(i))
    {
      handles[i].Destroy();
    }
  }

  // ----- what every operation keeps -----

  /** The live handles on payload p. */
  function Count(hs: seq<HandleState>, p: nat): nat {
    if hs == [] then 0 else Count(hs[..|hs| - 1], p) + Points(hs[|hs| - 1], p)
  }

  function Points(h: HandleState, p: nat): nat {
    if h.alive && h.bv == To(p) then 1 else 0
  }

  lemma {:induction false} CountAfterUpdate(hs: seq<HandleState>, i: nat, h: HandleState, p: nat)
    requires i < |hs|
    ensures Count(hs[i := h], p) == Count(hs, p) - Points(hs[i], p) + Points(h, p)
  {
    var n := |hs| - 1;
    if i == n {
      assert hs[i := h][..n] == hs[..n];
    } else {
      CountAfterUpdate(hs[..n], i, h, p);
      assert hs[i := h][..n] == hs[..n][i := h];
    }
  }

  lemma CountAfterAppend(hs: seq<HandleState>, h: HandleState, p: nat)
    ensures Count(hs + [h], p) == Count(hs, p) + Points(h, p)
  {
    assert (hs + [h])[..|hs|] == hs;
  }

  lemma {:induction false} CountedHandle(hs: seq<HandleState>, i: nat, p: nat)
    requires i < |hs| && Points(hs[i], p) == 1
    ensures Count(hs, p) >= 1
  {
    if i < |hs| - 1 {
      CountedHandle(hs[..|hs| - 1], i, p);
    }
  }

  lemma {:induction false} NoneBeyond(hs: seq<HandleState>, n: nat, p: nat)
    requires forall i :: 0 <= i < |hs| && hs[i].bv.To? ==> hs[i].bv.p < n
    requires p >= n
    ensures Count(hs, p) == 0
  {
    if hs != [] {
      NoneBeyond(hs[..|hs| - 1], n, p);
    }
  }

  /** Pointers lead to payloads, and those of live handles may be followed. */
  ghost predicate Placed(m: Memory) {
    forall i :: 0 <= i < |m.handles| ==>
      (m.handles[i].bv.To? ==> m.handles[i].bv.p < |m.payloads|) && (m.handles[i].alive ==> m.handles[i].bv != Wild)
  }

  /** The count is the number of live handles, and while there is one the payload has not been deleted. */
  ghost predicate Exact(m: Memory, p: nat)
    requires p < |m.payloads|
  {
    m.payloads[p].refcount == Count(m.handles, p) &&
    0 <= m.payloads[p].deleted <= (if m.payloads[p].refcount == 0 then 1 else 0)
  }

  ghost predicate Sound(m: Memory) {
    Placed(m) && forall p :: 0 <= p < |m.payloads| ==> Exact(m, p)
  }

  /** No copy of an empty handle, and no second handle family for a payload that is already counted. */
  predicate Careful(m: Memory, e: Event)
    requires Legal(m, e)
  {
    match e
    case Copy(j) => m.handles[j].bv != Null
    case Manage(k, p) => k == OfReader || m.payloads[p].refcount == 0
    case _ => true
  }

  /** A payload is deleted in exactly the steps that take its last live handle. */
  ghost predicate DeletedWithLast(m: Memory, r: Memory) {
    |m.payloads| <= |r.payloads| &&
    forall p :: 0 <= p < |m.payloads| ==>
      r.payloads[p].deleted - m.payloads[p].deleted ==
      if Count(m.handles, p) > 0 && Count(r.handles, p) == 0 then 1 else 0
  }

  function CountChange(m: Memory, e: Event, p: nat): int
    requires Legal(m, e)
  {
    match e
    case NewPayload => 0
    case NewHandle(_) => 0
    case Manage(k, q) => if p == q && !(k == OfReader && m.payloads[q].refcount > 0) then 1 else 0
    case Copy(j) => Points(m.handles[j], p)
    case Assign(i, j) =>
      if m.handles[i].kind == OfRecorder && m.handles[j].bv == Null then 0
      else Points(m.handles[j], p) as int - Points(m.handles[i], p)
    case Destroy(i) => 0 - Points(m.handles[i], p)
  }

  lemma CountAfter(m: Memory, e: Event, p: nat)
    requires Legal(m, e)
    ensures Count(Next(m, e).handles, p) == Count(m.handles, p) + CountChange(m, e, p)
  {
    hide Count;
    var r := Next(m, e);
    match e
    case NewPayload =>
    case NewHandle(_) => CountAfterAppend(m.handles, r.handles[|m.handles|], p);
    case Manage(k, _) =>
      if |r.handles| > |m.handles| {
        CountAfterAppend(m.handles, r.handles[|m.handles|], p);
      }
    case Copy(_) => CountAfterAppend(m.handles, r.handles[|m.handles|], p);
    case Assign(i, _) => CountAfterUpdate(m.handles, i, r.handles[i], p);
    case Destroy(i) => CountAfterUpdate(m.handles, i, r.handles[i], p);
  }

  /** One payload over one step. */
  lemma ExactAfter(m: Memory, e: Event, p: nat)
    requires Sound(m) && Legal(m, e) && Careful(m, e) && p < |m.payloads|
    ensures var r := Next(m, e);
            p < |r.payloads| && Exact(r, p) &&
            r.payloads[p].deleted - m.payloads[p].deleted ==
            if Count(m.handles, p) > 0 && Count(r.handles, p) == 0 then 1 else 0
    ensures Count(m.handles, p) == 0 && !(e.Manage? && e.p == p) ==> Count(Next(m, e).handles, p) == 0
    ensures e.Manage? && e.p == p ==> Count(Next(m, e).handles, p) > 0
  {
    hide Count, Next, Legal, Careful, CountChange, Releases;
    assert Exact(m, p);
    CountAfter(m, e, p);
    PayloadAfter(m, e, p);
    ReleasedWasCounted(m, e, p);
  }

  /** The step takes a live handle off the payload. */
  predicate Releases(m: Memory, e: Event, p: nat)
    requires Legal(m, e)
  {
    match e
    case Assign(i, j) => !(m.handles[i].kind == OfRecorder && m.handles[j].bv == Null) && m.handles[i].bv == To(p)
    case Destroy(i) => m.handles[i].bv == To(p)
    case _ => false
  }

  /** The count of a payload follows its handles, and a release that leaves zero deletes it. */
  lemma PayloadAfter(m: Memory, e: Event, p: nat)
    requires Legal(m, e) && Careful(m, e) && p < |m.payloads| && m.payloads[p].refcount >= 0
    ensures var r := Next(m, e);
            p < |r.payloads| && r.payloads[p].refcount == m.payloads[p].refcount + CountChange(m, e, p) &&
            r.payloads[p].deleted ==
            m.payloads[p].deleted + if Releases(m, e, p) && r.payloads[p].refcount == 0 then 1 else 0
  {
  }

  lemma ReleasedWasCounted(m: Memory, e: Event, p: nat)
    requires Placed(m) && Legal(m, e) && Careful(m, e) && p < |m.payloads|
    requires m.payloads[p].refcount == Count(m.handles, p)
    ensures Releases(m, e, p) ==> Count(m.handles, p) > 0
    ensures !Releases(m, e, p) ==> CountChange(m, e, p) >= 0
    ensures CountChange(m, e, p) >= -1 && Count(m.handles, p) + CountChange(m, e, p) >= 0
    ensures Count(m.handles, p) == 0 && !(e.Manage? && e.p == p) ==> CountChange(m, e, p) == 0
    ensures e.Manage? && e.p == p ==>
              m.payloads[p].deleted == 0 && Count(m.handles, p) + CountChange(m, e, p) > 0
  {
    hide Count;
    match e
    case Copy(j) => Counted(m, j, p);
    case Assign(i, j) =>
      Counted(m, i, p);
      Counted(m, j, p);
    case Destroy(i) => Counted(m, i, p);
    case _ =>
  }

  lemma Counted(m: Memory, i: nat, p: nat)
    requires Placed(m) && i < |m.handles|
    ensures Points(m.handles[i], p) <= Count(m.handles, p)
  {
    if Points(m.handles[i], p) == 1 {
      CountedHandle(m.handles, i, p);
    }
  }

  /** Every careful step keeps the counts exact and deletes with the last handle; a careless one breaks them. */
  lemma SoundStep(m: Memory, e: Event)
    requires Sound(m) && Legal(m, e)
    ensures Sound(Next(m, e)) <==> Careful(m, e)
    ensures Careful(m, e) ==> DeletedWithLast(m, Next(m, e))
  {
    hide Count, Exact;
    var r := Next(m, e);
    if Careful(m, e) {
      forall p | 0 <= p < |r.payloads| ensures Exact(r, p) {
        if p < |m.payloads| {
          ExactAfter(m, e, p);
        } else {
          ExactFresh(m, p);
        }
      }
      forall p | 0 <= p < |m.payloads|
        ensures r.payloads[p].deleted - m.payloads[p].deleted ==
                if Count(m.handles, p) > 0 && Count(r.handles, p) == 0 then 1 else 0
      {
        ExactAfter(m, e, p);
      }
    } else {
      Careless(m, e);
    }
  }

  lemma ExactFresh(m: Memory, p: nat)
    requires Placed(m) && Legal(m, NewPayload) && p == |m.payloads|
    ensures Exact(Next(m, NewPayload), p)
  {
    NoneBeyond(m.handles, |m.payloads|, p);
  }

  lemma Careless(m: Memory, e: Event)
    requires Sound(m) && Legal(m, e) && !Careful(m, e)
    ensures !Sound(Next(m, e))
  {
    hide Count;
    var r := Next(m, e);
    if e.Copy? {
      assert r.handles[|m.handles|].bv == Wild;
    } else {
      assert Exact(m, e.p);
      CountAfter(m, e, e.p);
      assert !Exact(r, e.p);
    }
  }

  // ----- whole runs -----

  function After(events: seq<Event>): Memory {
    if events == [] then Memory([], [])
    else
      var m, e := After(events[..|events| - 1]), events[|events| - 1];
      if Legal(m, e) then Next(m, e) else m
  }

  ghost predicate Run(events: seq<Event>) {
    events == [] ||
    (Run(events[..|events| - 1]) &&
     var m, e := After(events[..|events| - 1]), events[|events| - 1]; Legal(m, e) && Careful(m, e))
  }

  ghost predicate Managed(events: seq<Event>, p: nat) {
    events != [] &&
    (Managed(events[..|events| - 1], p) || (events[|events| - 1].Manage? && events[|events| - 1].p == p))
  }

  lemma {:induction false} SoundRun(events: seq<Event>)
    requires Run(events)
    ensures Sound(After(events))
  {
    hide Sound, Next, Legal, Careful;
    if events == [] {
      SoundEmpty();
    } else {
      SoundRun(events[..|events| - 1]);
      SoundStep(After(events[..|events| - 1]), events[|events| - 1]);
    }
  }

  lemma SoundEmpty()
    ensures Sound(Memory([], []))
  {
  }

  /** A payload that was ever handed to a handle has been deleted once if no handle is left, else not. */
  lemma {:induction false} DeletedExactlyOnce(events: seq<Event>, p: nat)
    requires Run(events) && p < |After(events).payloads|
    ensures var m := After(events);
            m.payloads[p].deleted == (if Managed(events, p) && Count(m.handles, p) == 0 then 1 else 0) &&
            (!Managed(events, p) ==> Count(m.handles, p) == 0)
  {
    hide Count, Exact;
    if events != [] {
      var before, e := events[..|events| - 1], events[|events| - 1];
      var m := After(before);
      SoundRun(before);
      if p < |m.payloads| {
        DeletedExactlyOnce(before, p);
        ExactAfter(m, e, p);
      } else {
        NoneBeyond(m.handles, |m.payloads|, p);
        NeverManaged(before, p);
      }
    }
  }

  lemma {:induction false} NeverManaged(events: seq<Event>, p: nat)
    requires Run(events) && p >= |After(events).payloads|
    ensures !Managed(events, p)
  {
    if events != [] {
      NeverManaged(events[..|events| - 1], p);
    }
  }

  /** No live handle points to a deleted payload. */
  lemma NoDanglingHandle(events: seq<Event>, i: nat)
    requires Run(events) && i < |After(events).handles| && After(events).handles[i].alive
    ensures var m := After(events);
            var bv := m.handles[i].bv;
            bv != Wild && (bv.To? ==> bv.p < |m.payloads| && m.payloads[bv.p].deleted == 0)
  {
    hide After;
    SoundRun(events);
    var m := After(events);
    assert Placed(m);
    var bv := m.handles[i].bv;
    if bv.To? {
      Counted(m, i, bv.p);
      assert Exact(m, bv.p);
    }
  }
}
