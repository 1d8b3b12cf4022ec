/** The two callback lists of the orientation module (sample listeners and quick-tilt
    listeners) and the try/catch `forEach` that notifies them. */
module Registry {

  /** The identity of a JavaScript function object: two callbacks are the same exactly
      when they are `===`. */
  type Listener = nat

  /** A value handed to a registration function: a function, or anything else. */
  datatype Callback = Function(ref: Listener) | NotAFunction

  /** One call of a listener with a payload. */
  datatype Delivery<P> = Delivery(to: Listener, payload: P)

  predicate NoDuplicates(ls: seq<Listener>) {
    forall i, j :: 0 <= i < j < |ls| ==> ls[i] != ls[j]
  }

  /** `onOrientationChange` / `onQuickTilt`: a function that is not yet registered is
      appended; non-functions and callbacks already present are ignored. */
  function Register(ls: seq<Listener>, cb: Callback): (r: seq<Listener>)
    ensures cb.NotAFunction? || cb.ref in ls ==> r == ls
    ensures forall l :: l in r <==> l in ls || cb == Function(l)
    ensures NoDuplicates(ls) ==> NoDuplicates(r)
    ensures |ls| <= |r| <= |ls| + 1 && r[..|ls|] == ls
  {
    match cb
    case NotAFunction => ls
    case Function(f) => if f in ls then ls else ls + [f]
  }

  /** `offOrientationChange` / `offQuickTilt`: `filter(cb => cb !== callback)`. */
  function Unregister(ls: seq<Listener>, cb: Callback): (r: seq<Listener>)
    ensures forall l :: l in r <==> l in ls && cb != Function(l)
    ensures NoDuplicates(ls) ==> NoDuplicates(r)
    ensures |r| <= |ls|
    decreases |ls|
  {
    if ls == [] then []
    else (if cb == Function(ls[0]) then [] else [ls[0]]) + Unregister(ls[1..], cb)
  }

  /** Removal works element by element, so the listeners that stay keep their order. */
  lemma {:induction false} UnregisterAppend(a: seq<Listener>, b: seq<Listener>, cb: Callback)
    ensures Unregister(a + b, cb) == Unregister(a, cb) + Unregister(b, cb)
    decreases |a|
  {
    if a == [] {
      assert a + b == b;
    } else {
      assert (a + b)[1..] == a[1..] + b;
      UnregisterAppend(a[1..], b, cb);
    }
  }

  /** Unregistering a callback that is not in the list changes nothing. */
  lemma {:induction false} UnregisterAbsent(ls: seq<Listener>, cb: Callback)
    requires forall l :: l in ls ==> cb != Function(l)
    ensures Unregister(ls, cb) == ls
    decreases |ls|
  {
    if ls != [] {
      assert ls[0] in ls;
      assert forall l :: l in ls[1..] ==> l in ls;
      UnregisterAbsent(ls[1..], cb);
      assert [ls[0]] + ls[1..] == ls;
    }
  }

  /** Unregistering undoes registering: registering and then unregistering a callback
      leaves the list as unregistering it alone would, and leaves a list that did not
      hold it exactly as it was. */
  lemma RegisterUnregister(ls: seq<Listener>, cb: Callback)
    ensures Unregister(Register(ls, cb), cb) == Unregister(ls, cb)
    ensures (forall l :: l in ls ==> cb != Function(l)) ==> Unregister(Register(ls, cb), cb) == ls
  {
    if cb.Function? && cb.ref !in ls {
      UnregisterAppend(ls, [cb.ref], cb);
      assert Unregister([cb.ref], cb) == [];
    }
    if forall l :: l in ls ==> cb != Function(l) {
      UnregisterAbsent(ls, cb);
    }
  }

  /** Registering twice is registering once; so is unregistering twice. */
  lemma RegistrationIdempotent(ls: seq<Listener>, cb: Callback)
    ensures Register(Register(ls, cb), cb) == Register(ls, cb)
    ensures Unregister(Unregister(ls, cb), cb) == Unregister(ls, cb)
  {
    var once := Unregister(ls, cb);
    assert forall l :: l in once ==> cb != Function(l);
    UnregisterAbsent(once, cb);
  }

  /** The notifications one `forEach` over `ls` sends: every listener, in list order,
      receives `p`. A listener that throws is caught, so it does not stop the others. */
  function Broadcast<P>(ls: seq<Listener>, p: P): seq<Delivery<P>> {
    seq(|ls|, i requires 0 <= i < |ls| => Delivery(ls[i], p))
  }

  /** How many times `l` was called with `p` in `sent`. */
  function Received<P(==)>(sent: seq<Delivery<P>>, l: Listener, p: P): nat
    decreases |sent|
  {
    if sent == [] then 0
    else (if sent[0] == Delivery(l, p) then 1 else 0) + Received(sent[1..], l, p)
  }

  lemma {:induction false} ReceivedAppend<P>(a: seq<Delivery<P>>, b: seq<Delivery<P>>, l: Listener, p: P)
    ensures Received(a + b, l, p) == Received(a, l, p) + Received(b, l, p)
    decreases |a|
  {
    if a == [] {
      assert a + b == b;
    } else {
      assert (a + b)[1..] == a[1..] + b;
      ReceivedAppend(a[1..], b, l, p);
    }
  }

  /** A broadcast of one payload delivers no other payload. */
  lemma {:induction false} BroadcastOnlyItsPayload<P>(ls: seq<Listener>, p: P, l: Listener, q: P)
    requires q != p
    ensures Received(Broadcast(ls, p), l, q) == 0
    decreases |ls|
  {
    if ls != [] {
      assert Broadcast(ls, p)[1..] == Broadcast(ls[1..], p);
      BroadcastOnlyItsPayload(ls[1..], p, l, q);
    }
  }

  /** With a duplicate-free list, one broadcast calls each registered listener exactly
      once with its payload, and calls no one else and with nothing else. */
  lemma {:induction false} BroadcastDeliversOnce<P>(ls: seq<Listener>, p: P, l: Listener, q: P)
    requires NoDuplicates(ls)
    ensures Received(Broadcast(ls, p), l, q) == if l in ls && q == p then 1 else 0
    decreases |ls|
  {
    if ls != [] {
      assert Broadcast(ls, p)[1..] == Broadcast(ls[1..], p);
      assert l in ls <==> l == ls[0] || l in ls[1..];
      assert ls[0] !in ls[1..] by {
        forall k | 0 <= k < |ls[1..]| ensures ls[1..][k] != ls[0] {
          assert ls[1..][k] == ls[k + 1];
        }
      }
      BroadcastDeliversOnce(ls[1..], p, l, q);
    }
  }

  /** The `forEach` with a per-listener `try/catch`, as a loop: every listener is called
      once, in order, whatever the others do. It is the loop form of `Broadcast`, which
      the detector's step uses. */
  method Dispatch<P>(ls: seq<Listener>, p: P) returns (sent: seq<Delivery<P>>)
    ensures sent == Broadcast(ls, p)
  {
    sent := [];
    var i := 0;
    while i < |ls|
      invariant 0 <= i <= |ls|
      invariant |sent| == i
      invariant forall k :: 0 <= k < i ==> sent[k] == Delivery(ls[k], p)
    {
      sent := sent + [Delivery(ls[i], p)];
      i := i + 1;
    }
  }
}
