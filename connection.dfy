/** The order of attempts in `_connect_to_mongodb`: a direct connection to
    each port in turn, then the whole replica set as a fallback. Each
    network exchange is an input: how the constructor and the `ping` of a
    direct attempt ended, and whether the replica-set `ping` succeeded. */
module Connection {
  import opened Wrappers

  const MongoPorts: seq<nat> := [3001, 3002, 3003]
  const ReplicaSetName: string := "rs"

  /** How one direct attempt ends: `MongoClient(...)` raised
      `ConnectionFailure` or `ServerSelectionTimeoutError`; the client was
      built but `ping` raised one of them; `ping` answered; or some other
      exception, which the loop does not catch. */
  datatype DirectAttempt = ConstructorFailed | PingFailed | PingOk | OtherFailure(reason: string)

  datatype Endpoint = DirectPort(port: nat) | ReplicaSetUri(ports: seq<nat>, replicaSet: string)

  /** A client, and whether a `ping` through it was answered. */
  datatype Client = Client(endpoint: Endpoint, pinged: bool)

  /** The connection set up, the `ConnectionError` raised when the
      fallback fails, or an exception escaping the direct loop. */
  datatype ConnectResult = Connected(client: Client) | ConnectionError | Raised(reason: string)

  /** Where the direct loop leaves `self.client`, or the exception that
      escaped it. */
  datatype LoopExit = Finished(client: Option<Client>) | Escaped(reason: string)

  predicate NoOtherFailure(attempts: seq<DirectAttempt>) {
    forall i :: 0 <= i < |attempts| ==> !attempts[i].OtherFailure?
  }

  /** The direct loop from port `i` on, as written: `self.client` is assigned
      as soon as the constructor returns, before `ping` is tried, so a failed
      `ping` leaves an unverified client behind. */
  function DirectLoop(attempts: seq<DirectAttempt>, i: nat, client: Option<Client>): LoopExit
    requires |attempts| == |MongoPorts| && i <= |MongoPorts|
    decreases |MongoPorts| - i
  {
    if i == |MongoPorts| then Finished(client)
    else
      match attempts[i]
      case ConstructorFailed => DirectLoop(attempts, i + 1, client)
      case PingFailed => DirectLoop(attempts, i + 1, Some(Client(DirectPort(MongoPorts[i]), false)))
      case PingOk => Finished(Some(Client(DirectPort(MongoPorts[i]), true)))
      case OtherFailure(reason) => Escaped(reason)
  }

  /** The replica-set strategy: the client is kept when its `ping` answers;
      any exception becomes `ConnectionError`. */
  function Fallback(replicaPingOk: bool): ConnectResult {
    if replicaPingOk then Connected(Client(ReplicaSetUri(MongoPorts, ReplicaSetName), true))
    else ConnectionError
  }

  /** `_connect_to_mongodb` as written: the fallback is guarded by
      `if not self.client`. */
  function ConnectAsWritten(attempts: seq<DirectAttempt>, replicaPingOk: bool): ConnectResult
    requires |attempts| == |MongoPorts|
  {
    match DirectLoop(attempts, 0, None)
    case Escaped(reason) => Raised(reason)
    case Finished(None) => Fallback(replicaPingOk)
    case Finished(Some(c)) => Connected(c)
  }

  /** `_connect_to_mongodb` as intended: the fallback runs whenever no
      direct `ping` was answered, and only a client whose `ping` answered is
      kept. */
  function ConnectIntended(attempts: seq<DirectAttempt>, replicaPingOk: bool): ConnectResult
    requires |attempts| == |MongoPorts|
  {
    match DirectLoop(attempts, 0, None)
    case Escaped(reason) => Raised(reason)
    case Finished(c) => if c.Some? && c.value.pinged then Connected(c.value) else Fallback(replicaPingOk)
  }

  /** The direct loop written as the loop it is, updating the client
      variable port by port. */
  method Connect(attempts: seq<DirectAttempt>, replicaPingOk: bool) returns (r: ConnectResult)
    requires |attempts| == |MongoPorts|
    ensures r == ConnectAsWritten(attempts, replicaPingOk)
  {
    var client: Option<Client> := None;
    var i := 0;
    while i < |MongoPorts|
      invariant 0 <= i <= |MongoPorts|
      invariant DirectLoop(attempts, 0, None) == DirectLoop(attempts, i, client)
    {
      match attempts[i] {
        case ConstructorFailed =>
          i := i + 1;
        case PingFailed =>
          client := Some(Client(DirectPort(MongoPorts[i]), false));
          i := i + 1;
        case PingOk =>
          client := Some(Client(DirectPort(MongoPorts[i]), true));
          break;
        case OtherFailure(reason) =>
          return Raised(reason);
      }
    }
    if client.None? {
      r := Fallback(replicaPingOk);
    } else {
      r := Connected(client.value);
    }
  }

  /** What the direct loop leaves behind when only the caught exceptions
      occur: a pinged client exactly when some `ping` from `i` on answered,
      and then the port of the first one; no client exactly when it started
      with none and every constructor from `i` on raised. */
  lemma {:induction false} DirectLoopOutcome(attempts: seq<DirectAttempt>, i: nat, client: Option<Client>)
    requires |attempts| == |MongoPorts| && i <= |MongoPorts|
    requires NoOtherFailure(attempts)
    requires client.None? || (client.value.endpoint.DirectPort? && !client.value.pinged)
    ensures DirectLoop(attempts, i, client).Finished?
    ensures var c := DirectLoop(attempts, i, client).client;
            && (c.Some? ==> c.value.endpoint.DirectPort?)
            && (c.Some? && c.value.pinged <==> exists j :: i <= j < |MongoPorts| && attempts[j] == PingOk)
            && (c.None? <==> client.None? && forall j :: i <= j < |MongoPorts| ==> attempts[j] == ConstructorFailed)
            && (c.Some? && c.value.pinged ==>
                  exists j :: i <= j < |MongoPorts| && attempts[j] == PingOk
                              && c.value.endpoint.port == MongoPorts[j]
                              && forall m :: i <= m < j ==> attempts[m] != PingOk)
    decreases |MongoPorts| - i
  {
    if i < |MongoPorts| {
      match attempts[i]
      case ConstructorFailed =>
        DirectLoopOutcome(attempts, i + 1, client);
      case PingFailed =>
        DirectLoopOutcome(attempts, i + 1, Some(Client(DirectPort(MongoPorts[i]), false)));
      case PingOk =>
        assert attempts[i] == PingOk;
    }
  }

  /** As written, the replica set is tried only when every direct
      constructor raised: a failed `ping` on some port suppresses it. */
  lemma AsWrittenFallbackOnlyWithoutClient(attempts: seq<DirectAttempt>, replicaPingOk: bool)
    requires |attempts| == |MongoPorts| && NoOtherFailure(attempts)
    ensures var r := ConnectAsWritten(attempts, replicaPingOk);
            (r.ConnectionError? || (r.Connected? && r.client.endpoint.ReplicaSetUri?))
            <==> forall j :: 0 <= j < |MongoPorts| ==> attempts[j] == ConstructorFailed
  {
    DirectLoopOutcome(attempts, 0, None);
  }

  /** The input that shows it: every direct `ping` fails while the replica
      set answers. As written, the unverified client on the last port is
      kept; as intended, the replica set is reached. */
  lemma PingFailuresSkipFallback()
    ensures ConnectAsWritten([PingFailed, PingFailed, PingFailed], true)
            == Connected(Client(DirectPort(3003), false))
    ensures ConnectIntended([PingFailed, PingFailed, PingFailed], true)
            == Connected(Client(ReplicaSetUri([3001, 3002, 3003], "rs"), true))
  {
  }

  /** As intended, every connection returned has answered a `ping`; a direct
      one is to the first port whose `ping` answered; the replica set is
      tried exactly when none did, and `ConnectionError` is raised exactly
      when it does not answer either. */
  lemma IntendedConnectsOnlyWhenPinged(attempts: seq<DirectAttempt>, replicaPingOk: bool)
    requires |attempts| == |MongoPorts| && NoOtherFailure(attempts)
    ensures var r := ConnectIntended(attempts, replicaPingOk);
            && !r.Raised?
            && (r.Connected? ==> r.client.pinged)
            && (r.Connected? && r.client.endpoint.DirectPort? ==>
                  exists j :: 0 <= j < |MongoPorts| && attempts[j] == PingOk
                              && r.client.endpoint.port == MongoPorts[j]
                              && forall m :: 0 <= m < j ==> attempts[m] != PingOk)
            && ((r.Connected? && r.client.endpoint.ReplicaSetUri?)
                <==> replicaPingOk && forall j :: 0 <= j < |MongoPorts| ==> attempts[j] != PingOk)
            && (r.ConnectionError?
                <==> !replicaPingOk && forall j :: 0 <= j < |MongoPorts| ==> attempts[j] != PingOk)
  {
    DirectLoopOutcome(attempts, 0, None);
  }
}
