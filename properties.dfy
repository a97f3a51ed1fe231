/** The observable-property core: `Property` (an insertion-ordered listener
    list), `SimpleProperty` (a value cell) and `NestProperty` (a view that
    reads and writes through to a `current` leaf chosen by a mapping of its
    owner's value, and re-subscribes whenever the owner changes).

    All properties live in one store, indexed by `PropId`. Listeners are
    tagged entries rather than closures: `External(id)` stands for a client
    callback, `Inner(n)` and `Owner(n)` for the two private listeners of the
    nest property `n`. A notification round returns its trace: one `Event`
    per listener entry, in list order, carrying what the callback receives
    (the notifying property, the old value and the value read at call time).
    What an `Inner` or `Owner` entry then does is a separate transition,
    `Store.Deliver`. */
module Properties {
  import opened Seqs

  type PropId = nat

  /** A value of the property's type, or `Null` for both null and undefined. */
  datatype Nullable<T> = Null | NonNull(val: T)

  datatype Listener = External(id: nat) | Inner(nest: PropId) | Owner(nest: PropId)

  datatype Event<T> = Event(source: PropId, listener: Listener, oldValue: Nullable<T>, newValue: Nullable<T>)

  /** The state of one property. A `Nest` keeps its owner, its mapping from
      owner values to leaf properties, and the leaf it currently targets. */
  datatype Cell<!T> =
    | Simple(value: Nullable<T>, listeners: seq<Listener>)
    | Nest(owner: PropId, mapping: Nullable<T> -> PropId, current: PropId, listeners: seq<Listener>)

  ghost predicate IsLeaf<T(!new)>(cs: seq<Cell<T>>, p: PropId) {
    p < |cs| && cs[p].Simple?
  }

  ghost predicate IsNest<T(!new)>(cs: seq<Cell<T>>, p: PropId) {
    p < |cs| && cs[p].Nest?
  }

  ghost predicate MapsToLeaves<T(!new)>(cs: seq<Cell<T>>, f: Nullable<T> -> PropId) {
    forall v :: IsLeaf(cs, f(v))
  }

  /** A listener entry that refers only to properties that exist. */
  ghost predicate Known<T(!new)>(cs: seq<Cell<T>>, l: Listener) {
    l.External? || IsNest(cs, l.nest)
  }

  /** A nest built on an earlier owner, targeting a leaf, whose mapping yields leaves. */
  ghost predicate NestOk<T(!new)>(cs: seq<Cell<T>>, n: PropId)
    requires IsNest(cs, n)
  {
    cs[n].owner < n && IsLeaf(cs, cs[n].current) && MapsToLeaves(cs, cs[n].mapping)
  }

  /** A listener list whose entries are all known. */
  ghost predicate ListOk<T(!new)>(cs: seq<Cell<T>>, p: PropId)
    requires p < |cs|
  {
    forall l | l in cs[p].listeners :: Known(cs, l)
  }

  ghost predicate WellFormed<T(!new)>(cs: seq<Cell<T>>) {
    && (forall n: PropId | IsNest(cs, n) :: NestOk(cs, n))
    && (forall p: PropId | p < |cs| :: ListOk(cs, p))
  }

  /** The two subscription edges of nest `n`, as seen from the list of `p`:
      `Owner(n)` sits there once if `p` is the owner and not at all otherwise;
      `Inner(n)` sits there at most once, and only if `p` is the current target. */
  ghost predicate EdgesOk<T(!new)>(cs: seq<Cell<T>>, n: PropId, p: PropId)
    requires IsNest(cs, n) && p < |cs|
  {
    && multiset(cs[p].listeners)[Owner(n)] == (if p == cs[n].owner then 1 else 0)
    && multiset(cs[p].listeners)[Inner(n)] <= (if p == cs[n].current then 1 else 0)
  }

  ghost predicate Wired<T(!new)>(cs: seq<Cell<T>>) {
    forall n: PropId, p: PropId | IsNest(cs, n) && p < |cs| :: EdgesOk(cs, n, p)
  }

  /** The getter: a simple property's stored value, a nest's current target's value. */
  function ValueOf<T(!new)>(cs: seq<Cell<T>>, p: PropId): Nullable<T>
    requires WellFormed(cs) && p < |cs|
  {
    match cs[p]
    case Simple(v, _) => v
    case Nest(_, _, c, _) => assert NestOk(cs, p); cs[c].value
  }

  /** One notification round of `src` over the listener list `ls`. */
  function Round<T(!new)>(src: PropId, ls: seq<Listener>, o: Nullable<T>, nv: Nullable<T>): (r: seq<Event<T>>)
    ensures |r| == |ls|
    ensures forall i | 0 <= i < |ls| :: r[i] == Event(src, ls[i], o, nv)
  {
    if ls == [] then [] else [Event(src, ls[0], o, nv)] + Round(src, ls[1..], o, nv)
  }

  /** The listener entries a trace reached, in order. */
  function Recipients<T(!new)>(trace: seq<Event<T>>): seq<Listener> {
    if trace == [] then [] else [trace[0].listener] + Recipients(trace[1..])
  }

  /** Each listener entry, duplicates included, is called exactly once per
      round, in list order. */
  lemma {:induction false} RoundReachesEachEntryOnce<T(!new)>(src: PropId, ls: seq<Listener>, o: Nullable<T>, nv: Nullable<T>)
    ensures Recipients(Round(src, ls, o, nv)) == ls
    ensures forall l :: multiset(Recipients(Round(src, ls, o, nv)))[l] == multiset(ls)[l]
  {
    if ls != [] {
      RoundReachesEachEntryOnce(src, ls[1..], o, nv);
      assert Round(src, ls, o, nv)[1..] == Round(src, ls[1..], o, nv);
      assert ls == [ls[0]] + ls[1..];
    }
  }

  /** The value kept by `update`: the transform's result unless it is null. */
  function Stored<T(!new)>(current: Nullable<T>, result: Nullable<T>): Nullable<T> {
    if result.NonNull? then result else current
  }

  function WithListeners<T(!new)>(cs: seq<Cell<T>>, p: PropId, ls: seq<Listener>): seq<Cell<T>>
    requires p < |cs|
  {
    cs[p := cs[p].(listeners := ls)]
  }

  /** `addListener` on property `p`. */
  function Subscribe<T(!new)>(cs: seq<Cell<T>>, p: PropId, l: Listener): seq<Cell<T>>
    requires p < |cs|
  {
    WithListeners(cs, p, cs[p].listeners + [l])
  }

  /** `removeListener` on property `p`. */
  function Unsubscribe<T(!new)>(cs: seq<Cell<T>>, p: PropId, l: Listener): seq<Cell<T>>
    requires p < |cs|
  {
    WithListeners(cs, p, RemoveFirst(cs[p].listeners, l))
  }

  /** The value slot of leaf `p` after `update` stored `v`. */
  function Written<T(!new)>(cs: seq<Cell<T>>, p: PropId, v: Nullable<T>): seq<Cell<T>>
    requires IsLeaf(cs, p)
  {
    cs[p := cs[p].(value := v)]
  }

  /** The state after the setter of leaf `p` was given `x`. */
  function Assigned<T(==,!new)>(cs: seq<Cell<T>>, p: PropId, x: Nullable<T>): seq<Cell<T>>
    requires IsLeaf(cs, p)
  {
    if cs[p].value == x then cs else Written(cs, p, Stored(cs[p].value, x))
  }

  /** The trace of the setter of leaf `p` given `x`. */
  function AssignTrace<T(==,!new)>(cs: seq<Cell<T>>, p: PropId, x: Nullable<T>): seq<Event<T>>
    requires IsLeaf(cs, p)
  {
    if cs[p].value == x then [] else Round(p, cs[p].listeners, cs[p].value, Stored(cs[p].value, x))
  }

  /** The setter of a leaf: a value equal to the stored one changes nothing
      and notifies nobody; any other value is stored unless it is null, and
      then every listener entry is notified once, in order, with the old
      value and the value now stored, so a null write yields (old, old). No
      listener list changes. */
  lemma {:induction false} SetterNotifiesOnChange<T(!new)>(cs: seq<Cell<T>>, p: PropId, x: Nullable<T>)
    requires IsLeaf(cs, p)
    ensures var cs', t := Assigned(cs, p, x), AssignTrace(cs, p, x);
      && (cs[p].value == x ==> cs' == cs && t == [])
      && (cs[p].value != x ==>
            && cs'[p].value == (if x.NonNull? then x else cs[p].value)
            && Recipients(t) == cs[p].listeners
            && forall i | 0 <= i < |t| :: t[i].source == p && t[i].oldValue == cs[p].value && t[i].newValue == cs'[p].value)
      && (forall q: PropId | q < |cs| && q != p :: cs'[q] == cs[q])
      && (forall q: PropId | q < |cs| :: cs'[q].listeners == cs[q].listeners)
  {
    RoundReachesEachEntryOnce(p, cs[p].listeners, cs[p].value, Stored(cs[p].value, x));
  }

  /** The state after a nest property was built on `owner` with mapping `f`:
      a new cell targeting `f(owner's value)`, and `Owner(n)` appended to
      the owner's list. */
  function Created<T(!new)>(cs: seq<Cell<T>>, owner: PropId, f: Nullable<T> -> PropId): seq<Cell<T>>
    requires WellFormed(cs) && owner < |cs|
  {
    Subscribe(cs + [Nest(owner, f, f(ValueOf(cs, owner)), [])], owner, Owner(|cs|))
  }

  /** The state after the owner listener of nest `n` ran for the owner value
      `v`: `Inner(n)` removed once from the old target, the target replaced
      by `mapping(v)`, and `Inner(n)` appended to the new target's list. */
  function Retargeted<T(!new)>(cs: seq<Cell<T>>, n: PropId, v: Nullable<T>): seq<Cell<T>>
    requires WellFormed(cs) && IsNest(cs, n)
  {
    var a := Unsubscribe(cs, cs[n].current, Inner(n));
    var c := cs[n].mapping(v);
    Subscribe(a[n := a[n].(current := c)], c, Inner(n))
  }

  /** `cs'` has at least the cells of `cs`, each of the same kind. */
  ghost predicate SameKinds<T(!new)>(cs: seq<Cell<T>>, cs': seq<Cell<T>>) {
    |cs| <= |cs'| && forall p | 0 <= p < |cs| :: cs'[p].Simple? == cs[p].Simple?
  }

  lemma SameKindsKeepsReferences<T(!new)>(cs: seq<Cell<T>>, cs': seq<Cell<T>>)
    requires SameKinds(cs, cs')
    ensures forall q: PropId :: IsLeaf(cs, q) ==> IsLeaf(cs', q)
    ensures forall l :: Known(cs, l) ==> Known(cs', l)
    ensures forall f: Nullable<T> -> PropId :: MapsToLeaves(cs, f) ==> MapsToLeaves(cs', f)
  {
  }

  /** Replacing one listener list by known entries keeps a store well formed. */
  lemma WithListenersWellFormed<T(!new)>(cs: seq<Cell<T>>, p: PropId, ls: seq<Listener>)
    requires WellFormed(cs) && p < |cs|
    requires forall l | l in ls :: Known(cs, l)
    ensures WellFormed(WithListeners(cs, p, ls))
  {
    var cs' := WithListeners(cs, p, ls);
    SameKindsKeepsReferences(cs, cs');
    forall n: PropId | IsNest(cs', n) ensures NestOk(cs', n) {
      assert NestOk(cs, n);
    }
    forall q: PropId | q < |cs'| ensures ListOk(cs', q) {
      if q != p {
        assert ListOk(cs, q);
      }
    }
  }

  lemma SubscribeWellFormed<T(!new)>(cs: seq<Cell<T>>, p: PropId, l: Listener)
    requires WellFormed(cs) && p < |cs| && Known(cs, l)
    ensures WellFormed(Subscribe(cs, p, l))
  {
    assert ListOk(cs, p);
    WithListenersWellFormed(cs, p, cs[p].listeners + [l]);
  }

  lemma UnsubscribeWellFormed<T(!new)>(cs: seq<Cell<T>>, p: PropId, l: Listener)
    requires WellFormed(cs) && p < |cs|
    ensures WellFormed(Unsubscribe(cs, p, l))
  {
    assert ListOk(cs, p);
    var ls := RemoveFirst(cs[p].listeners, l);
    forall k | k in ls ensures Known(cs, k) {
      assert multiset(ls)[k] > 0;
    }
    WithListenersWellFormed(cs, p, ls);
  }

  /** Appending a client listener keeps every nest's edges. */
  lemma SubscribeClientKeepsWired<T(!new)>(cs: seq<Cell<T>>, p: PropId, id: nat)
    requires Wired(cs) && p < |cs|
    ensures Wired(Subscribe(cs, p, External(id)))
  {
    var cs' := Subscribe(cs, p, External(id));
    forall n: PropId, q: PropId | IsNest(cs', n) && q < |cs'| ensures EdgesOk(cs', n, q) {
      assert EdgesOk(cs, n, q);
      if q == p {
        assert multiset(cs'[q].listeners) == multiset(cs[q].listeners) + multiset{External(id)};
      }
    }
  }

  /** Removing one entry that is not an owner listener keeps every nest's edges. */
  lemma UnsubscribeKeepsWired<T(!new)>(cs: seq<Cell<T>>, p: PropId, l: Listener)
    requires Wired(cs) && p < |cs| && !l.Owner?
    ensures Wired(Unsubscribe(cs, p, l))
  {
    var cs' := Unsubscribe(cs, p, l);
    forall n: PropId, q: PropId | IsNest(cs', n) && q < |cs'| ensures EdgesOk(cs', n, q) {
      assert EdgesOk(cs, n, q);
      if q == p {
        RemoveFirstCount(cs[p].listeners, l, Owner(n));
        RemoveFirstCount(cs[p].listeners, l, Inner(n));
      }
    }
  }

  /** First step of the owner listener: once `Inner(n)` is removed from the
      current target, no list holds it. */
  lemma DetachInner<T(!new)>(cs: seq<Cell<T>>, n: PropId)
    requires WellFormed(cs) && Wired(cs) && IsNest(cs, n)
    ensures var a := Unsubscribe(cs, cs[n].current, Inner(n));
      && Wired(a)
      && forall q: PropId | q < |a| :: multiset(a[q].listeners)[Inner(n)] == 0
  {
    assert NestOk(cs, n);
    var c := cs[n].current;
    var a := Unsubscribe(cs, c, Inner(n));
    UnsubscribeKeepsWired(cs, c, Inner(n));
    forall q: PropId | q < |a| ensures multiset(a[q].listeners)[Inner(n)] == 0 {
      assert EdgesOk(cs, n, q);
      if q == c {
        assert multiset(a[q].listeners) == multiset(cs[q].listeners) - multiset{Inner(n)};
      }
    }
  }

  /** Second step: retargeting a nest whose inner listener is nowhere keeps
      every nest's edges. */
  lemma RetargetDetached<T(!new)>(cs: seq<Cell<T>>, n: PropId, c: PropId)
    requires Wired(cs) && IsNest(cs, n)
    requires forall q: PropId | q < |cs| :: multiset(cs[q].listeners)[Inner(n)] == 0
    ensures Wired(cs[n := cs[n].(current := c)])
  {
    var b := cs[n := cs[n].(current := c)];
    forall m: PropId, q: PropId | IsNest(b, m) && q < |b| ensures EdgesOk(b, m, q) {
      assert EdgesOk(cs, m, q);
    }
  }

  /** Third step: subscribing the inner listener of a detached nest to its
      target puts it on that one list, once. */
  lemma AttachInner<T(!new)>(cs: seq<Cell<T>>, n: PropId)
    requires Wired(cs) && IsNest(cs, n) && cs[n].current < |cs|
    requires forall q: PropId | q < |cs| :: multiset(cs[q].listeners)[Inner(n)] == 0
    ensures var cs' := Subscribe(cs, cs[n].current, Inner(n));
      && Wired(cs')
      && forall q: PropId | q < |cs'| ::
           multiset(cs'[q].listeners)[Inner(n)] == (if q == cs[n].current then 1 else 0)
  {
    var c := cs[n].current;
    var cs' := Subscribe(cs, c, Inner(n));
    assert multiset(cs'[c].listeners) == multiset(cs[c].listeners) + multiset{Inner(n)};
    forall m: PropId, q: PropId | IsNest(cs', m) && q < |cs'| ensures EdgesOk(cs', m, q) {
      assert EdgesOk(cs, m, q);
    }
  }

  /** Building a nest keeps the store well formed. */
  lemma CreatedWellFormed<T(!new)>(cs: seq<Cell<T>>, owner: PropId, f: Nullable<T> -> PropId)
    requires WellFormed(cs) && owner < |cs| && MapsToLeaves(cs, f)
    ensures WellFormed(Created(cs, owner, f))
  {
    var n := |cs|;
    var grown := cs + [Nest(owner, f, f(ValueOf(cs, owner)), [])];
    SameKindsKeepsReferences(cs, grown);
    forall m: PropId | IsNest(grown, m) ensures NestOk(grown, m) {
      if m < n {
        assert NestOk(cs, m);
      }
    }
    forall q: PropId | q < |grown| ensures ListOk(grown, q) {
      if q < n {
        assert ListOk(cs, q);
      }
    }
    SubscribeWellFormed(grown, owner, Owner(n));
  }

  /** Building a nest keeps every edge and installs only the owner listener:
      `Owner(n)` once on the owner's list, and no list holds `Inner(n)`, so
      changes of the first target are not forwarded until the owner changes. */
  lemma CreatedWired<T(!new)>(cs: seq<Cell<T>>, owner: PropId, f: Nullable<T> -> PropId)
    requires WellFormed(cs) && Wired(cs) && owner < |cs| && MapsToLeaves(cs, f)
    ensures var cs' := Created(cs, owner, f);
      && Wired(cs')
      && cs'[|cs|].current == f(ValueOf(cs, owner))
      && forall p: PropId | p < |cs'| :: Inner(|cs|) !in cs'[p].listeners
  {
    var n := |cs|;
    var cs' := Created(cs, owner, f);
    assert multiset(cs'[owner].listeners) == multiset(cs[owner].listeners) + multiset{Owner(n)};
    forall q: PropId | q < n
      ensures Owner(n) !in cs[q].listeners && Inner(n) !in cs[q].listeners
    {
      assert ListOk(cs, q);
    }
    forall m: PropId, q: PropId | IsNest(cs', m) && q < |cs'| ensures EdgesOk(cs', m, q) {
      if q == n {
        assert cs'[q].listeners == [];
        if m < n {
          assert NestOk(cs, m);
        }
      } else {
        var before := multiset(cs[q].listeners);
        var after := multiset(cs'[q].listeners);
        assert after == if q == owner then before + multiset{Owner(n)} else before;
        if m < n {
          assert EdgesOk(cs, m, q);
          assert cs'[m].owner == cs[m].owner && cs'[m].current == cs[m].current;
        } else {
          assert before[Owner(n)] == 0 && before[Inner(n)] == 0;
        }
      }
    }
  }

  /** Storing a value in a leaf keeps the store well formed. */
  lemma WrittenWellFormed<T(!new)>(cs: seq<Cell<T>>, p: PropId, v: Nullable<T>)
    requires WellFormed(cs) && IsLeaf(cs, p)
    ensures WellFormed(Written(cs, p, v))
    ensures Wired(cs) ==> Wired(Written(cs, p, v))
  {
    var cs' := Written(cs, p, v);
    if Wired(cs) {
      forall m: PropId, q: PropId | IsNest(cs', m) && q < |cs'| ensures EdgesOk(cs', m, q) {
        assert EdgesOk(cs, m, q);
      }
    }
    SameKindsKeepsReferences(cs, cs');
    forall m: PropId | IsNest(cs', m) ensures NestOk(cs', m) {
      assert NestOk(cs, m);
    }
    forall q: PropId | q < |cs'| ensures ListOk(cs', q) {
      assert ListOk(cs, q);
    }
  }

  /** Pointing a nest at another leaf keeps the store well formed. */
  lemma RetargetStepWellFormed<T(!new)>(cs: seq<Cell<T>>, n: PropId, c: PropId)
    requires WellFormed(cs) && IsNest(cs, n) && IsLeaf(cs, c)
    ensures WellFormed(cs[n := cs[n].(current := c)])
  {
    var b := cs[n := cs[n].(current := c)];
    SameKindsKeepsReferences(cs, b);
    forall m: PropId | IsNest(b, m) ensures NestOk(b, m) {
      assert NestOk(cs, m);
    }
    forall q: PropId | q < |b| ensures ListOk(b, q) {
      assert ListOk(cs, q);
    }
  }

  /** The owner listener keeps the store well formed. */
  lemma RetargetedWellFormed<T(!new)>(cs: seq<Cell<T>>, n: PropId, v: Nullable<T>)
    requires WellFormed(cs) && IsNest(cs, n)
    ensures WellFormed(Retargeted(cs, n, v))
  {
    assert NestOk(cs, n);
    var c0, c1 := cs[n].current, cs[n].mapping(v);
    var a := Unsubscribe(cs, c0, Inner(n));
    UnsubscribeWellFormed(cs, c0, Inner(n));
    var b := a[n := a[n].(current := c1)];
    RetargetStepWellFormed(a, n, c1);
    SubscribeWellFormed(b, c1, Inner(n));
  }

  /** The owner listener keeps every edge and moves the forwarding edge:
      afterwards `Inner(n)` sits exactly once on the new target's list and on
      no other. */
  lemma RetargetedWired<T(!new)>(cs: seq<Cell<T>>, n: PropId, v: Nullable<T>)
    requires WellFormed(cs) && Wired(cs) && IsNest(cs, n)
    ensures var cs' := Retargeted(cs, n, v);
      && Wired(cs')
      && cs'[n].current == cs[n].mapping(v)
      && forall q: PropId | q < |cs'| ::
           multiset(cs'[q].listeners)[Inner(n)] == (if q == cs'[n].current then 1 else 0)
  {
    assert NestOk(cs, n);
    var c1 := cs[n].mapping(v);
    var a := Unsubscribe(cs, cs[n].current, Inner(n));
    DetachInner(cs, n);
    var b := a[n := a[n].(current := c1)];
    RetargetDetached(a, n, c1);
    AttachInner(b, n);
  }

  /** The owner listener changes no stored value: every leaf keeps its value,
      and only the nest `n` now reads through to its new target. */
  lemma RetargetedValues<T(!new)>(cs: seq<Cell<T>>, n: PropId, v: Nullable<T>)
    requires WellFormed(cs) && IsNest(cs, n)
    ensures var cs' := Retargeted(cs, n, v);
      var c0, c1 := cs[n].current, cs[n].mapping(v);
      && WellFormed(cs') && |cs'| == |cs|
      && cs'[n] == cs[n].(current := c1)
      && (forall p: PropId | IsLeaf(cs, p) :: IsLeaf(cs', p) && cs'[p].value == cs[p].value)
      && (forall p: PropId | p < |cs| && p != n && p != c0 && p != c1 :: cs'[p] == cs[p])
      && ValueOf(cs', n) == cs[c1].value
  {
    assert NestOk(cs, n);
    RetargetedWellFormed(cs, n, v);
  }

  /** After the owner listener ran, a round on the old target no longer
      reaches the nest, and a round on the new target reaches it exactly once. */
  lemma ForwardingFollowsTarget<T(!new)>(cs: seq<Cell<T>>, n: PropId, v: Nullable<T>, o: Nullable<T>, nv: Nullable<T>)
    requires WellFormed(cs) && Wired(cs) && IsNest(cs, n)
    ensures var cs' := Retargeted(cs, n, v);
      var c0, c1 := cs[n].current, cs[n].mapping(v);
      && (c0 != c1 ==> Inner(n) !in Recipients(Round(c0, cs'[c0].listeners, o, nv)))
      && multiset(Recipients(Round(c1, cs'[c1].listeners, o, nv)))[Inner(n)] == 1
  {
    var cs' := Retargeted(cs, n, v);
    var c0, c1 := cs[n].current, cs[n].mapping(v);
    RetargetedWired(cs, n, v);
    RetargetedWellFormed(cs, n, v);
    assert NestOk(cs, n) && NestOk(cs', n);
    var l0, l1 := cs'[c0].listeners, cs'[c1].listeners;
    assert multiset(l1)[Inner(n)] == 1;
    RoundReachesEachEntryOnce(c1, l1, o, nv);
    if c0 != c1 {
      assert multiset(l0)[Inner(n)] == 0;
      RoundReachesEachEntryOnce(c0, l0, o, nv);
    }
  }

  /** Writing through a nest changes only its current target: the owner's
      value and listener list are untouched when the owner is not that
      target, and every listener list stays as it was. */
  lemma WriteThroughSparesOwner<T(!new)>(cs: seq<Cell<T>>, n: PropId, x: Nullable<T>)
    requires WellFormed(cs) && IsNest(cs, n)
    ensures var c := cs[n].current;
      var cs' := Assigned(cs, c, x);
      && WellFormed(cs')
      && (forall p: PropId | p < |cs| && p != c :: cs'[p] == cs[p])
      && (forall p: PropId | p < |cs| :: cs'[p].listeners == cs[p].listeners)
      && ValueOf(cs', n) == (if x.NonNull? then x else cs[c].value)
  {
    assert NestOk(cs, n);
    var c := cs[n].current;
    WrittenWellFormed(cs, c, Stored(cs[c].value, x));
  }

}
