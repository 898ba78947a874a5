/** The Python callback proxies: a proxy wraps a weak reference to a
    callback, and its equality and hash are those of the reference, so that
    proxies can key sets and dicts by the identity of the callback.

  Weak references are modelled by the identity of their referent (`Ref`);
  whether a referent is still alive is an explicit set of live identities.
 */
module PyProxy {
  import opened Wrappers

  /** The identity of the referent behind a weak reference. */
  type Ref = nat

  /** The values carried by value callbacks; integers stand for any value. */
  type Value = int

  datatype ProxyKind = SignalKind | ValueKind

  /** A `SignalProxy` or a `ValueProxy`. */
  datatype Proxy = Proxy(kind: ProxyKind, reference: Ref)

  /** The right-hand side of `proxy == other`. */
  datatype Operand = AProxy(proxy: Proxy) | AReference(reference: Ref) | OtherObject

  /** `__eq__`: against a proxy of the same class compare the references,
      against a bare reference compare with our own, anything else raises. */
  function Equals(p: Proxy, other: Operand): (r: Result<bool>)
    ensures r.Err? <==> other.OtherObject? || (other.AProxy? && other.proxy.kind != p.kind)
    ensures r.Err? ==> r.error == NotImplementedError
    ensures other.AProxy? && other.proxy.kind == p.kind ==>
      r == Ok(p.reference == other.proxy.reference)
    ensures other.AReference? ==> r == Ok(p.reference == other.reference)
  {
    match other
    case AProxy(q) =>
      if q.kind == p.kind then Ok(p.reference == q.reference) else Err(NotImplementedError)
    case AReference(ref) => Ok(p.reference == ref)
    case OtherObject => Err(NotImplementedError)
  }

  /** `__hash__` delegates to the hash of the reference. */
  function Hash(p: Proxy, hashOf: Ref -> int): int
  {
    hashOf(p.reference)
  }

  /** Proxy equality is an equivalence on proxies of one class and agrees
      with the hash, so a proxy is a sound set element and dict key; a proxy
      rebuilt from the same reference (as `ForgetCallback_` does) finds the
      stored one. */
  lemma EqualsIsIdentity(p: Proxy, q: Proxy, s: Proxy, hashOf: Ref -> int)
    requires p.kind == q.kind == s.kind
    ensures Equals(p, AProxy(p)) == Ok(true)
    ensures Equals(p, AProxy(q)) == Equals(q, AProxy(p))
    ensures Equals(p, AProxy(q)) == Ok(true) && Equals(q, AProxy(s)) == Ok(true) ==>
      Equals(p, AProxy(s)) == Ok(true)
    ensures Equals(p, AProxy(q)) == Ok(true) ==> Hash(p, hashOf) == Hash(q, hashOf)
    ensures Equals(p, AProxy(q)) == Ok(true) <==> p == q
    ensures Equals(p, AProxy(q)) == Equals(p, AReference(q.reference))
  {
  }

  /** Calling a signal proxy calls its referent, which must be alive. */
  function CallSignal(p: Proxy, alive: set<Ref>): (r: Result<Ref>)
    requires p.kind == SignalKind
    ensures r.Ok? <==> p.reference in alive
    ensures r.Ok? ==> r.value == p.reference
    ensures r.Err? ==> r.error == AssertionError
  {
    if p.reference in alive then Ok(p.reference) else Err(AssertionError)
  }

  /** Calling a value proxy forwards the value to its live referent. */
  function CallValue(p: Proxy, alive: set<Ref>, v: Value): (r: Result<(Ref, Value)>)
    requires p.kind == ValueKind
    ensures r.Ok? <==> p.reference in alive
    ensures r.Ok? ==> r.value == (p.reference, v)
    ensures r.Err? ==> r.error == AssertionError
  {
    if p.reference in alive then Ok((p.reference, v)) else Err(AssertionError)
  }

  /** A `FilterProxy` holds a reference to a one-argument callable. */
  datatype FilterProxy = FilterProxy(reference: Ref, callback: Value -> Value)

  /** Calling a filter proxy returns what its live referent returns. */
  function CallFilter(f: FilterProxy, alive: set<Ref>, v: Value): (r: Result<Value>)
    ensures r.Ok? <==> f.reference in alive
    ensures r.Ok? ==> r.value == f.callback(v)
    ensures r.Err? ==> r.error == AssertionError
  {
    if f.reference in alive then Ok(f.callback(v)) else Err(AssertionError)
  }
}
