/** The properties as the program holds them: one store whose methods are
    the operations of `Property`, `SimpleProperty` and `NestProperty`, each
    proved to perform the transition of the `Properties` module it names and
    to return the notifications it makes. */
module PropertyStore {
  import opened Seqs
  import opened Properties

  class Store<T(==,!new)> {
    var cells: seq<Cell<T>>

    ghost predicate Valid()
      reads this
    {
      WellFormed(cells)
    }

    constructor ()
      ensures Valid() && Wired(cells) && cells == []
    {
      cells := [];
    }

    /** `new SimpleProperty(defaultValue)`: a fresh leaf with no listeners. */
    method NewSimple(init: Nullable<T>) returns (p: PropId)
      requires Valid()
      modifies this
      ensures Valid() && p == |old(cells)| && IsLeaf(cells, p)
      ensures cells == old(cells) + [Simple(init, [])]
      ensures old(Wired(cells)) ==> Wired(cells)
    {
      p := |cells|;
      ghost var before := cells;
      cells := cells + [Simple(init, [])];
      SameKindsKeepsReferences(before, cells);
      forall m: PropId | IsNest(cells, m) ensures NestOk(cells, m) {
        assert NestOk(before, m);
      }
      forall q: PropId | q < |cells| ensures ListOk(cells, q) {
        if q < |before| {
          assert ListOk(before, q);
        }
      }
      if Wired(before) {
        forall m: PropId, q: PropId | IsNest(cells, m) && q < |cells| ensures EdgesOk(cells, m, q) {
          if q < |before| {
            assert EdgesOk(before, m, q);
          } else {
            assert NestOk(before, m);
          }
        }
      }
    }

    /** `addListener`: appends the entry, with no uniqueness check. */
    method AddListener(p: PropId, l: Listener)
      requires Valid() && p < |cells| && Known(cells, l)
      modifies this
      ensures Valid()
      ensures cells == Subscribe(old(cells), p, l)
      ensures l.External? && old(Wired(cells)) ==> Wired(cells)
    {
      SubscribeWellFormed(cells, p, l);
      if l.External? && Wired(cells) {
        SubscribeClientKeepsWired(cells, p, l.id);
      }
      cells := cells[p := cells[p].(listeners := cells[p].listeners + [l])];
    }

    /** `removeListener`: `indexOf` the entry and, when it is there, `splice`
      out that one element. */
    method RemoveListener(p: PropId, l: Listener)
      requires Valid() && p < |cells|
      modifies this
      ensures Valid()
      ensures cells == Unsubscribe(old(cells), p, l)
      ensures l !in old(cells)[p].listeners ==> cells == old(cells)
      ensures !l.Owner? && old(Wired(cells)) ==> Wired(cells)
    {
      ghost var target := Unsubscribe(cells, p, l);
      UnsubscribeWellFormed(cells, p, l);
      if !l.Owner? && Wired(cells) {
        UnsubscribeKeepsWired(cells, p, l);
      }
      var ls := cells[p].listeners;
      var index := IndexOf(ls, l);
      if index != -1 {
        var rest := ls[..index] + ls[index + 1..];
        assert rest == RemoveFirst(ls, l) by { RemoveFirstIsSplice(ls, l); }
        cells := WithListeners(cells, p, rest);
      } else {
        assert target == cells by { assert WithListeners(cells, p, ls) == cells; }
      }
      assert cells == target;
    }

    /** `callListener(old)`: calls every entry in list order with the old
      value and the value read at the time of the call. */
    method CallListener(p: PropId, o: Nullable<T>) returns (trace: seq<Event<T>>)
      requires Valid() && p < |cells|
      ensures trace == Round(p, cells[p].listeners, o, ValueOf(cells, p))
    {
      var ls := cells[p].listeners;
      trace := [];
      var i := 0;
      while i < |ls|
        invariant 0 <= i <= |ls|
        invariant |trace| == i
        invariant forall k | 0 <= k < i :: trace[k] == Event(p, ls[k], o, ValueOf(cells, p))
      {
        trace := trace + [Event(p, ls[i], o, ValueOf(cells, p))];
        i := i + 1;
      }
    }

    /** `SimpleProperty.update(f)`: stores `f`'s result unless it is null,
      then notifies every listener whether or not anything changed. */
    method Update(p: PropId, f: Nullable<T> -> Nullable<T>) returns (trace: seq<Event<T>>)
      requires Valid() && IsLeaf(cells, p)
      modifies this
      ensures Valid()
      ensures var was := old(cells)[p].value;
        && cells == Written(old(cells), p, Stored(was, f(was)))
        && trace == Round(p, old(cells)[p].listeners, was, Stored(was, f(was)))
      ensures f(old(cells)[p].value) == Null ==> cells == old(cells)
      ensures old(Wired(cells)) ==> Wired(cells)
    {
      var oldValue := cells[p].value;
      var v := f(cells[p].value);
      WrittenWellFormed(cells, p, Stored(oldValue, v));
      if v != Null {
        cells := cells[p := cells[p].(value := v)];
      } else {
        assert cells[p := cells[p].(value := oldValue)] == cells;
      }
      trace := CallListener(p, oldValue);
    }

    /** The `SimpleProperty` setter: nothing at all when `x` equals the
      stored value, otherwise `update` with the constant `x`. */
    method SetSimple(p: PropId, x: Nullable<T>) returns (trace: seq<Event<T>>)
      requires Valid() && IsLeaf(cells, p)
      modifies this
      ensures Valid()
      ensures cells == Assigned(old(cells), p, x)
      ensures trace == AssignTrace(old(cells), p, x)
      ensures old(Wired(cells)) ==> Wired(cells)
    {
      if cells[p].value == x {
        return [];
      }
      trace := Update(p, _ => x);
    }

    /** The `NestProperty` setter: writes through to the current target. */
    method SetNest(n: PropId, x: Nullable<T>) returns (trace: seq<Event<T>>)
      requires Valid() && IsNest(cells, n)
      modifies this
      ensures Valid()
      ensures var c := old(cells)[n].current;
        && cells == Assigned(old(cells), c, x)
        && trace == AssignTrace(old(cells), c, x)
      ensures old(Wired(cells)) ==> Wired(cells)
    {
      assert NestOk(cells, n);
      trace := SetSimple(cells[n].current, x);
    }

    /** `owner.nestProp(f)`, that is `new NestProperty(owner, f)`: targets
      `f(owner.value)` and subscribes only the owner listener. */
    method NestProp(owner: PropId, f: Nullable<T> -> PropId) returns (n: PropId)
      requires Valid() && owner < |cells| && MapsToLeaves(cells, f)
      modifies this
      ensures Valid() && n == |old(cells)| && IsNest(cells, n)
      ensures cells == Created(old(cells), owner, f)
      ensures old(Wired(cells)) ==> Wired(cells)
    {
      ghost var before := cells;
      CreatedWellFormed(before, owner, f);
      if Wired(before) {
        CreatedWired(before, owner, f);
      }
      n := |cells|;
      var current := f(ValueOf(cells, owner));
      cells := cells + [Nest(owner, f, current, [])];
      cells := cells[owner := cells[owner].(listeners := cells[owner].listeners + [Owner(n)])];
    }

    /** The owner listener of nest `n`, run with the owner's new value:
      remember the nest's value, unsubscribe the inner listener from the old
      target, retarget, subscribe it to the new target, then notify the
      nest's own listeners. */
    method OwnerListener(n: PropId, ownerValue: Nullable<T>) returns (trace: seq<Event<T>>)
      requires Valid() && IsNest(cells, n)
      modifies this
      ensures Valid()
      ensures cells == Retargeted(old(cells), n, ownerValue)
      ensures trace == Round(n, old(cells)[n].listeners, ValueOf(old(cells), n), ValueOf(cells, n))
      ensures old(Wired(cells)) ==> Wired(cells)
    {
      ghost var before := cells;
      RetargetedWellFormed(before, n, ownerValue);
      RetargetedValues(before, n, ownerValue);
      if Wired(before) {
        RetargetedWired(before, n, ownerValue);
      }
      var previous := ValueOf(cells, n);
      RemoveListener(cells[n].current, Inner(n));
      var c := cells[n].mapping(ownerValue);
      assert NestOk(cells, n);
      RetargetStepWellFormed(cells, n, c);
      cells := cells[n := cells[n].(current := c)];
      AddListener(c, Inner(n));
      trace := CallListener(n, previous);
    }

    /** The inner listener of nest `n`: re-raises a change of its target as
      a round on the nest, with the old value the target reported. */
    method InnerListener(n: PropId, o: Nullable<T>) returns (trace: seq<Event<T>>)
      requires Valid() && IsNest(cells, n)
      ensures trace == Round(n, cells[n].listeners, o, cells[cells[n].current].value)
    {
      assert NestOk(cells, n);
      trace := CallListener(n, o);
    }

    /** Runs the callback behind one event's entry: nothing observable for a
      client callback, the inner or owner listener of a nest otherwise. */
    method Deliver(e: Event<T>) returns (trace: seq<Event<T>>)
      requires Valid() && Known(cells, e.listener)
      modifies this
      ensures Valid()
      ensures e.listener.External? ==> cells == old(cells) && trace == []
      ensures e.listener.Inner? ==>
        && cells == old(cells)
        && trace == Round(e.listener.nest, cells[e.listener.nest].listeners, e.oldValue, ValueOf(cells, e.listener.nest))
      ensures e.listener.Owner? ==>
        && cells == Retargeted(old(cells), e.listener.nest, e.newValue)
        && trace == Round(e.listener.nest, old(cells)[e.listener.nest].listeners,
                          ValueOf(old(cells), e.listener.nest), ValueOf(cells, e.listener.nest))
      ensures old(Wired(cells)) ==> Wired(cells)
    {
      match e.listener
      case External(_) =>
        trace := [];
      case Inner(n) =>
        trace := InnerListener(n, e.oldValue);
      case Owner(n) =>
        trace := OwnerListener(n, e.newValue);
    }
  }
}
