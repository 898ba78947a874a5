/** The Python manifolds: a hub that maps topic names to the proxies of the
    callbacks subscribed to them, and each proxy back to its topics.

  A proxy is identified by the weak reference it wraps (see `PyProxy`), so
  the maps hold `Ref`s. The same structure serves the
  `SignalManifold` (publish without a value) and the `ValueManifold`
  (publish with a value); `ValueCallbackManifold` is the plain set of
  proxies a value node calls locally.
 */
module PyManifold {
  import opened PyProxy

  /** A topic is the name of a node. */
  type Topic = string

  datatype Manifold = Manifold(
    callbacksByTopic: map<Topic, set<Ref>>,
    topicsByCallback: map<Ref, set<Topic>>)
  {
    /** The two maps describe the same relation, and neither holds an
        empty set (`ForgetCallback_` pops a topic once its set empties). */
    ghost predicate Valid() {
      && (forall t, p :: t in callbacksByTopic && p in callbacksByTopic[t] ==>
            p in topicsByCallback && t in topicsByCallback[p])
      && (forall p, t :: p in topicsByCallback && t in topicsByCallback[p] ==>
            t in callbacksByTopic && p in callbacksByTopic[t])
      && (forall t :: t in callbacksByTopic ==> callbacksByTopic[t] != {})
      && (forall p :: p in topicsByCallback ==> topicsByCallback[p] != {})
    }

    /** The subscription relation both maps describe. */
    ghost predicate Subscribed(t: Topic, p: Ref) {
      t in callbacksByTopic && p in callbacksByTopic[t]
    }
  }

  function Empty(): (m: Manifold)
    ensures m.Valid()
    ensures forall t, p :: !m.Subscribed(t, p)
  {
    Manifold(map[], map[])
  }

  /** `Subscribe(topic, callback)`: add the proxy under the topic and the
      topic under the proxy; both maps hold sets, so repeating it is harmless. */
  function Subscribe(m: Manifold, topic: Topic, p: Ref): (m': Manifold)
    requires m.Valid()
    ensures m'.Valid()
    ensures forall t, q :: m'.Subscribed(t, q) <==> m.Subscribed(t, q) || (t == topic && q == p)
  {
    var topics := if p in m.topicsByCallback then m.topicsByCallback[p] else {};
    var proxies := if topic in m.callbacksByTopic then m.callbacksByTopic[topic] else {};
    Manifold(m.callbacksByTopic[topic := proxies + {p}], m.topicsByCallback[p := topics + {topic}])
  }

  /** The proxies `Publish(topic)` invokes, each exactly once; an unknown
      topic invokes nothing (and, being a `get`, creates no entry). */
  function Subscribers(m: Manifold, topic: Topic): (s: set<Ref>)
    requires m.Valid()
    ensures forall p :: p in s <==> m.Subscribed(topic, p)
    ensures topic !in m.callbacksByTopic ==> s == {}
  {
    if topic in m.callbacksByTopic then m.callbacksByTopic[topic] else {}
  }

  /** One proxy invocation performed by a `ValueManifold.Publish`. */
  datatype Call = Call(proxy: Ref, value: Value)

  /** `ValueManifold.Publish(topic, value)`: every subscriber of the topic
      receives the same value, once. */
  function PublishValue(m: Manifold, topic: Topic, value: Value): (calls: set<Call>)
    requires m.Valid()
    ensures forall p, v :: Call(p, v) in calls <==> m.Subscribed(topic, p) && v == value
  {
    set p | p in Subscribers(m, topic) :: Call(p, value)
  }

  /** `ForgetCallback_(reference)`: the referent is being finalised, so
      drop it from every topic, drop its reverse entry, and pop topics that
      are left without subscribers. */
  function ForgetCallback(m: Manifold, p: Ref): (m': Manifold)
    requires m.Valid()
    ensures m'.Valid()
    ensures forall t, q :: m'.Subscribed(t, q) <==> m.Subscribed(t, q) && q != p
    ensures p !in m'.topicsByCallback
    ensures forall q :: q != p && q in m.topicsByCallback ==>
      q in m'.topicsByCallback && m'.topicsByCallback[q] == m.topicsByCallback[q]
  {
    var subscribed := if p in m.topicsByCallback then m.topicsByCallback[p] else {};
    var byTopic := map t | t in m.callbacksByTopic && (t !in subscribed || m.callbacksByTopic[t] != {p})
      :: if t in subscribed then m.callbacksByTopic[t] - {p} else m.callbacksByTopic[t];
    var byCallback := map q | q in m.topicsByCallback && q != p :: m.topicsByCallback[q];
    Manifold(byTopic, byCallback)
  }

  /** `Unsubscribe(callback)` forgets the proxy of the callback's reference. */
  function Unsubscribe(m: Manifold, p: Ref): (m': Manifold)
    requires m.Valid()
    ensures m'.Valid()
    ensures forall t :: !m'.Subscribed(t, p)
    ensures m' == ForgetCallback(m, p)
  {
    ForgetCallback(m, p)
  }

  /** The relation determines a valid manifold completely. */
  lemma {:induction false} ValidExtensional(a: Manifold, b: Manifold)
    requires a.Valid() && b.Valid()
    requires forall t, p :: a.Subscribed(t, p) <==> b.Subscribed(t, p)
    ensures a == b
  {
    forall t | t in a.callbacksByTopic
      ensures t in b.callbacksByTopic && a.callbacksByTopic[t] == b.callbacksByTopic[t]
    {
      var p :| p in a.callbacksByTopic[t];
      assert a.Subscribed(t, p);
      assert b.callbacksByTopic[t] == a.callbacksByTopic[t] by {
        forall q ensures q in a.callbacksByTopic[t] <==> q in b.callbacksByTopic[t] {
          assert a.Subscribed(t, q) <==> b.Subscribed(t, q);
        }
      }
    }
    forall t | t in b.callbacksByTopic ensures t in a.callbacksByTopic {
      var p :| p in b.callbacksByTopic[t];
      assert b.Subscribed(t, p);
    }
    assert a.callbacksByTopic == b.callbacksByTopic;
    forall p | p in a.topicsByCallback
      ensures p in b.topicsByCallback && a.topicsByCallback[p] == b.topicsByCallback[p]
    {
      var t :| t in a.topicsByCallback[p];
      assert a.Subscribed(t, p);
      assert b.topicsByCallback[p] == a.topicsByCallback[p] by {
        forall u ensures u in a.topicsByCallback[p] <==> u in b.topicsByCallback[p] {
          assert a.Subscribed(u, p) <==> b.Subscribed(u, p);
        }
      }
    }
    forall p | p in b.topicsByCallback ensures p in a.topicsByCallback {
      var t :| t in b.topicsByCallback[p];
      assert b.Subscribed(t, p);
    }
    assert a.topicsByCallback == b.topicsByCallback;
  }

  /** Subscribing the same proxy to the same topic twice is the same as once. */
  lemma SubscribeIdempotent(m: Manifold, topic: Topic, p: Ref)
    requires m.Valid()
    ensures Subscribe(Subscribe(m, topic, p), topic, p) == Subscribe(m, topic, p)
  {
    ValidExtensional(Subscribe(Subscribe(m, topic, p), topic, p), Subscribe(m, topic, p));
  }

  /** Forgetting a proxy that is not subscribed (never, or no longer)
      changes neither map. */
  lemma ForgetUnknownIsNoOp(m: Manifold, p: Ref)
    requires m.Valid()
    requires forall t :: !m.Subscribed(t, p)
    ensures ForgetCallback(m, p) == m
  {
    ValidExtensional(ForgetCallback(m, p), m);
  }

  /** Forgetting is idempotent. */
  lemma ForgetTwice(m: Manifold, p: Ref)
    requires m.Valid()
    ensures ForgetCallback(ForgetCallback(m, p), p) == ForgetCallback(m, p)
  {
    ForgetUnknownIsNoOp(ForgetCallback(m, p), p);
  }

  /** Subscribing a fresh proxy and then forgetting it restores the manifold. */
  lemma SubscribeThenForget(m: Manifold, topic: Topic, p: Ref)
    requires m.Valid()
    requires forall t :: !m.Subscribed(t, p)
    ensures ForgetCallback(Subscribe(m, topic, p), p) == m
  {
    ValidExtensional(ForgetCallback(Subscribe(m, topic, p), p), m);
  }

  /** Publishing one topic never reaches a proxy subscribed only elsewhere. */
  lemma PublishIsolated(m: Manifold, topic: Topic, other: Topic, p: Ref)
    requires m.Valid()
    requires m.Subscribed(other, p) && !m.Subscribed(topic, p)
    ensures p !in Subscribers(m, topic)
  {
  }

  /** `ValueCallbackManifold`: the set of proxies a value calls locally. */
  datatype CallbackSet = CallbackSet(callbacks: set<Ref>)

  /** `Add(callback)`: one proxy per distinct callback. */
  function Add(c: CallbackSet, p: Ref): (c': CallbackSet)
    ensures p in c'.callbacks
    ensures forall q :: q != p ==> (q in c'.callbacks <==> q in c.callbacks)
  {
    CallbackSet(c.callbacks + {p})
  }

  /** `ForgetCallback_`: discard, whether or not present. */
  function Discard(c: CallbackSet, p: Ref): (c': CallbackSet)
    ensures p !in c'.callbacks
    ensures forall q :: q != p ==> (q in c'.callbacks <==> q in c.callbacks)
  {
    CallbackSet(c.callbacks - {p})
  }

  /** `__call__(value)`: each registered proxy receives the value once. */
  function Invoke(c: CallbackSet, value: Value): (calls: set<Call>)
    ensures forall p, v :: Call(p, v) in calls <==> p in c.callbacks && v == value
  {
    set p | p in c.callbacks :: Call(p, value)
  }

  /** Adding a callback twice leaves the same set as adding it once, and a
      discarded callback is not called. */
  lemma AddIdempotentDiscardSilences(c: CallbackSet, p: Ref, value: Value)
    ensures Add(Add(c, p), p) == Add(c, p)
    ensures Call(p, value) !in Invoke(Discard(Add(c, p), p), value)
  {
  }
}
