/** Go error values as finite chains, with `errors.Is` and `errors.As` over them.

    `fmt.Errorf("...: %w", e)` is `Wrapped(e)`; message texts are not modelled.
    Targets of `errors.Is` are always package-level error variables here, so a
    target is a `Sentinel`. */
module Errors {
  import opened Wrappers

  /** The package-level error variables the client branches on. */
  datatype Sentinel =
    | Io
    | InstanceNotActive
    | TargetDisconnected
    | ClientNotActive
    | NoDataMember
    | ResponseChannelClosed
    | CircuitOpen
    | DeadlineExceeded
    | ContextCanceled
    | ContextDeadlineExceeded
    | RetryableIo
    | OtherRetryable(name: string)
    | Other(name: string)
  {
    /** Is the variable of type `*hzerrors.RetryableError`? */
    predicate IsRetryableType() {
      RetryableIo? || OtherRetryable?
    }
  }

  datatype Error =
    | Leaf(sentinel: Sentinel)
    | Wrapped(inner: Error)
    | ClientError(wrapped: Option<Error>, kind: Option<Error>)
    | NonRetryable(err: Error, persistent: bool)

  function Unwrap(e: Error): Option<Error> {
    match e
    case Leaf(_) => None
    case Wrapped(inner) => Some(inner)
    case ClientError(wrapped, _) => wrapped
    case NonRetryable(err, _) => Some(err)
  }

  /** `errors.Is(e, s)`: each link is compared, then asked through its `Is` method. */
  predicate Is(e: Error, s: Sentinel) {
    || e == Leaf(s)
    || (e.ClientError? && e.kind == Some(Leaf(s)))
    || (Unwrap(e).Some? && Is(Unwrap(e).value, s))
  }

  /** `errors.As(e, **NonRetryableError)`: the outermost non-retryable link. */
  function AsNonRetryable(e: Error): (r: Option<Error>)
    ensures r.Some? ==> r.value.NonRetryable?
  {
    if e.NonRetryable? then Some(e)
    else if Unwrap(e).Some? then AsNonRetryable(Unwrap(e).value)
    else None
  }

  /** Does some link of the chain carry the persistent non-retryable mark? */
  ghost predicate HasPersistent(e: Error) {
    || (e.NonRetryable? && e.persistent)
    || (Unwrap(e).Some? && HasPersistent(Unwrap(e).value))
  }

  /** `ihzerrors.IsRetryable`: a type test on the outermost link only. */
  predicate IsRetryable(e: Error) {
    || (e.Leaf? && e.sentinel.IsRetryableType())
    || (e.ClientError? && e.kind.Some? && e.kind.value.Leaf? && e.kind.value.sentinel.IsRetryableType())
  }

  predicate ContextErr(e: Error) {
    Is(e, ContextCanceled) || Is(e, ContextDeadlineExceeded)
  }

  /** The links of an error, outermost first. */
  function Chain(e: Error): (links: seq<Error>)
    ensures links != [] && links[0] == e
  {
    [e] + if Unwrap(e).Some? then Chain(Unwrap(e).value) else []
  }

  /** Does the link itself, as it stands or by its kind, answer to the variable? */
  predicate Matches(link: Error, s: Sentinel) {
    link == Leaf(s) || (link.ClientError? && link.kind == Some(Leaf(s)))
  }

  /** No wrapper hides a cause or a mark. */
  lemma WrappersShowCauses(e: Error, kind: Option<Error>, persistent: bool, s: Sentinel)
    requires Is(e, s)
    ensures Is(Wrapped(e), s) && Is(ClientError(Some(e), kind), s) && Is(NonRetryable(e, persistent), s)
    ensures Is(ClientError(None, Some(Leaf(s))), s)
    ensures AsNonRetryable(e).Some? ==>
              AsNonRetryable(Wrapped(e)) == AsNonRetryable(ClientError(Some(e), kind)) == AsNonRetryable(e)
  {
  }

  /** `Is` finds a variable exactly if some link of the chain answers to it. */
  lemma {:induction false} IsIffInChain(e: Error, s: Sentinel)
    ensures Is(e, s) <==> InChain(e, s)
    decreases e
  {
    InChainSteps(e, s);
    if Unwrap(e).Some? {
      IsIffInChain(Unwrap(e).value, s);
    }
  }

  ghost predicate InChain(e: Error, s: Sentinel) {
    exists i :: 0 <= i < |Chain(e)| && Matches(Chain(e)[i], s)
  }

  lemma InChainSteps(e: Error, s: Sentinel)
    ensures InChain(e, s) <==> Matches(e, s) || (Unwrap(e).Some? && InChain(Unwrap(e).value, s))
  {
    var links := Chain(e);
    assert Matches(e, s) ==> Matches(links[0], s);
    if Unwrap(e).Some? {
      var rest := Chain(Unwrap(e).value);
      assert links == [e] + rest;
      if InChain(Unwrap(e).value, s) {
        var i :| 0 <= i < |rest| && Matches(rest[i], s);
        assert Matches(links[i + 1], s);
      }
      if InChain(e, s) && !Matches(e, s) {
        var i :| 0 <= i < |links| && Matches(links[i], s);
        assert Matches(rest[i - 1], s);
      }
    }
  }

  /** `As` finds the first marked link of the chain, and a persistent mark is one on any link. */
  lemma {:induction false} MarksInChain(e: Error)
    ensures
      match AsNonRetryable(e)
      case Some(nr) => exists i :: FirstMarked(e, i) && Chain(e)[i] == nr
      case None => forall i :: 0 <= i < |Chain(e)| ==> !Chain(e)[i].NonRetryable?
    ensures HasPersistent(e) <==> exists i :: 0 <= i < |Chain(e)| && PersistentLink(Chain(e)[i])
    decreases e
  {
    if Unwrap(e).Some? {
      var inner := Unwrap(e).value;
      MarksInChain(inner);
      assert forall i :: 1 <= i < |Chain(e)| ==> Chain(e)[i] == Chain(inner)[i - 1];
      assert forall i :: 0 <= i < |Chain(inner)| ==> Chain(inner)[i] == Chain(e)[i + 1];
      if e.NonRetryable? {
        assert FirstMarked(e, 0);
      } else if AsNonRetryable(inner).Some? {
        var i :| FirstMarked(inner, i) && Chain(inner)[i] == AsNonRetryable(inner).value;
        assert FirstMarked(e, i + 1);
      }
    }
  }

  predicate PersistentLink(link: Error) {
    link.NonRetryable? && link.persistent
  }

  predicate FirstMarked(e: Error, i: int) {
    && 0 <= i < |Chain(e)| && Chain(e)[i].NonRetryable?
    && forall j :: 0 <= j < i ==> !Chain(e)[j].NonRetryable?
  }

  /** How many non-retryable marks the chain carries. */
  function Marks(e: Error): nat {
    (if e.NonRetryable? then 1 else 0) + (if Unwrap(e).Some? then Marks(Unwrap(e).value) else 0)
  }

  /** The error below the `k` outermost marks. */
  function Stripped(e: Error, k: nat): Error
    decreases k
  {
    if k == 0 then e
    else match AsNonRetryable(e)
      case Some(nr) => Stripped(nr.err, k - 1)
      case None => e
  }

  /** The outermost mark is one of the chain's, and what lies below it is part of the chain. */
  lemma {:induction false} OutermostMark(e: Error)
    ensures AsNonRetryable(e).Some? <==> Marks(e) > 0
    ensures Marks(e) > 0 ==>
              var nr := AsNonRetryable(e).value;
              && Marks(nr.err) == Marks(e) - 1
              && (forall s :: Is(nr.err, s) ==> Is(e, s))
              && (!HasPersistent(e) ==> !nr.persistent && !HasPersistent(nr.err))
    decreases e
  {
    if !e.NonRetryable? && Unwrap(e).Some? {
      OutermostMark(Unwrap(e).value);
    }
  }

  /** Stripping one mark after another. */
  lemma {:induction false} StripOneMore(e: Error, k: nat)
    requires k <= Marks(e)
    ensures Marks(Stripped(e, k)) == Marks(e) - k
    ensures forall s :: Is(Stripped(e, k), s) ==> Is(e, s)
    ensures !HasPersistent(e) ==> !HasPersistent(Stripped(e, k))
    ensures k < Marks(e) ==>
              var next := AsNonRetryable(Stripped(e, k));
              next.Some? && next.value.err == Stripped(e, k + 1) && (!HasPersistent(e) ==> !next.value.persistent)
    decreases k
  {
    OutermostMark(e);
    if k > 0 {
      StripOneMore(AsNonRetryable(e).value.err, k - 1);
    }
  }

  /** A persistent link survives stripping the outermost non-persistent one. */
  lemma {:induction false} PersistentSurvivesStripping(e: Error)
    requires HasPersistent(e)
    ensures AsNonRetryable(e).Some?
    ensures !AsNonRetryable(e).value.persistent ==> HasPersistent(AsNonRetryable(e).value.err)
    decreases e
  {
    if !e.NonRetryable? {
      PersistentSurvivesStripping(Unwrap(e).value);
    }
  }
}
