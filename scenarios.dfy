/** Clients of the store that replay the documented behaviour of the
    properties from their contracts alone. */
module Scenarios {
  import opened Seqs
  import opened Properties
  import opened PropertyStore

  /** A simple property at 1 with one client listener: setting 2 notifies
      once with (1, 2); setting 2 again notifies nobody; `update` with an
      increment notifies once with (2, 3); `update` returning null keeps 3
      and still notifies with (3, 3). */
  method SetThenUpdate() returns (set1: seq<Event<int>>, set2: seq<Event<int>>,
                                  inc: seq<Event<int>>, noop: seq<Event<int>>, last: Nullable<int>)
    ensures set1 == [Event(0, External(7), NonNull(1), NonNull(2))]
    ensures set2 == []
    ensures inc == [Event(0, External(7), NonNull(2), NonNull(3))]
    ensures noop == [Event(0, External(7), NonNull(3), NonNull(3))]
    ensures last == NonNull(3)
  {
    var s := new Store<int>();
    var p := s.NewSimple(NonNull(1));
    s.AddListener(p, External(7));
    set1 := s.SetSimple(p, NonNull(2));
    set2 := s.SetSimple(p, NonNull(2));
    inc := s.Update(p, (v: Nullable<int>) => if v.NonNull? then NonNull(v.val + 1) else v);
    noop := s.Update(p, (v: Nullable<int>) => Null);
    last := s.cells[p].value;
  }

  /** A nest on owner `o` maps 1 to leaf `a` and 2 to leaf `b`. Writes to `a`
      before the first owner change are not forwarded. Changing the owner to
      2 notifies its owner listener; delivering that retargets the nest to `b`
      and notifies the nest's client once with (10, 20). Afterwards a write to
      `a` reaches nobody, a write to `b` reaches the inner listener, and
      delivering that notifies the client with (20, 21). Writing through the
      nest changes `b` and leaves the owner alone. */
  method RetargetOnOwnerChange()
      returns (early: seq<Event<int>>, ownerRound: seq<Event<int>>, nestRound: seq<Event<int>>,
               stale: seq<Event<int>>, leafRound: seq<Event<int>>, forwarded: seq<Event<int>>,
               through: Nullable<int>, ownerAfter: Nullable<int>)
    ensures early == []
    ensures ownerRound == [Event(0, Owner(3), NonNull(1), NonNull(2))]
    ensures nestRound == [Event(3, External(9), NonNull(11), NonNull(20))]
    ensures stale == []
    ensures leafRound == [Event(2, Inner(3), NonNull(20), NonNull(21))]
    ensures forwarded == [Event(3, External(9), NonNull(20), NonNull(21))]
    ensures through == NonNull(5) && ownerAfter == NonNull(2)
  {
    var s := new Store<int>();
    var o := s.NewSimple(NonNull(1));
    var a := s.NewSimple(NonNull(10));
    var b := s.NewSimple(NonNull(20));
    var n := s.NestProp(o, v => if v == NonNull(2) then b else a);
    assert s.cells[n].current == a && s.cells[a].listeners == [] && s.cells[o].listeners == [Owner(n)];
    s.AddListener(n, External(9));
    early := s.SetSimple(a, NonNull(11));
    ownerRound := s.SetSimple(o, NonNull(2));
    assert s.cells[a] == Simple(NonNull(11), []) && s.cells[b] == Simple(NonNull(20), []);
    assert ownerRound[0] == Event(o, Owner(n), NonNull(1), NonNull(2));
    ghost var before := s.cells;
    assert Unsubscribe(before, a, Inner(n)) == before by {
      assert RemoveFirst(before[a].listeners, Inner(n)) == before[a].listeners;
    }
    nestRound := s.Deliver(ownerRound[0]);
    assert s.cells == Subscribe(before[n := before[n].(current := b)], b, Inner(n));
    stale, leafRound, forwarded, through := AfterRetarget(s, a, b, n);
    ownerAfter := ValueOf(s.cells, o);
  }

  /** The second half of RetargetOnOwnerChange, once the nest targets `b`. */
  method AfterRetarget(s: Store<int>, a: PropId, b: PropId, n: PropId)
      returns (stale: seq<Event<int>>, leafRound: seq<Event<int>>, forwarded: seq<Event<int>>,
               through: Nullable<int>)
    requires s.Valid() && IsLeaf(s.cells, a) && IsLeaf(s.cells, b) && IsNest(s.cells, n)
    requires a != b && s.cells[n].current == b && s.cells[n].listeners == [External(9)]
    requires s.cells[a] == Simple(NonNull(11), []) && s.cells[b] == Simple(NonNull(20), [Inner(n)])
    modifies s
    ensures s.Valid() && |s.cells| == |old(s.cells)|
    ensures forall p: PropId | p < |s.cells| && p != a && p != b :: s.cells[p] == old(s.cells)[p]
    ensures stale == []
    ensures leafRound == [Event(b, Inner(n), NonNull(20), NonNull(21))]
    ensures forwarded == [Event(n, External(9), NonNull(20), NonNull(21))]
    ensures through == NonNull(5)
  {
    stale := s.SetSimple(a, NonNull(12));
    leafRound := s.SetSimple(b, NonNull(21));
    forwarded := s.Deliver(leafRound[0]);
    var _ := s.SetNest(n, NonNull(5));
    through := ValueOf(s.cells, n);
  }
}
