/** The resolver's data logic (resolver.go): the health filter, the mapping
    from directory entries to addresses, the address-list comparison, one
    health query, and the watch loop that delivers address lists. */
module Resolver {
  import opened Base
  import opened Strings
  import opened Net
  import opened Options

  /** The aggregated status of an entry whose checks all pass. */
  const HealthPassing: string := "passing"

  /** One entry of a health query answer, reduced to what the resolver reads:
      the node's address, the service's own address (possibly empty), the
      service port and the aggregated status of its checks. */
  datatype ServiceEntry = ServiceEntry(nodeAddress: string, serviceAddress: string, servicePort: int, status: string)

  /** `resolver.Address`; the resolver sets only `Addr`. */
  datatype Address = Address(addr: string)

  /** How a query can fail: cancelled through the resolver's context, or any other error. */
  datatype QueryError = Canceled | Failed(message: string)

  /** What the directory answers one health query with. */
  datatype DirectoryReply = Error(error: QueryError) | Entries(entries: seq<ServiceEntry>, lastIndex: nat)

  /** The arguments of one health query: service, tags, passing-only, and the blocking cursor. */
  datatype HealthRequest = HealthRequest(service: string, tags: Slice<string>, passingOnly: bool, waitIndex: nat)

  /** What a resolver was built with. */
  datatype ResolverConfig = ResolverConfig(service: string, tags: Slice<string>, healthFilter: HealthFilter)

  // ---------------------------------------------------------------------
  // filterPreferOnlyHealthy
  // ---------------------------------------------------------------------

  predicate IsPassing(e: ServiceEntry) {
    e.status == HealthPassing
  }

  /** The passing entries, in input order. */
  function Passing(entries: seq<ServiceEntry>): seq<ServiceEntry>
    decreases |entries|
  {
    if entries == [] then []
    else
      var init := Passing(entries[..|entries| - 1]);
      var last := entries[|entries| - 1];
      if IsPassing(last) then init + [last] else init
  }

  /** The passing entries if there are any, otherwise all of them. */
  function PreferHealthy(entries: seq<ServiceEntry>): seq<ServiceEntry> {
    var healthy := Passing(entries);
    if |healthy| != 0 then healthy else entries
  }

  /** `filterPreferOnlyHealthy`: collects the passing entries and returns
      them, or the input unchanged when none is passing. */
  method FilterPreferOnlyHealthy(entries: seq<ServiceEntry>) returns (r: seq<ServiceEntry>)
    ensures r == PreferHealthy(entries)
  {
    var healthy: seq<ServiceEntry> := [];
    for i := 0 to |entries|
      invariant healthy == Passing(entries[..i])
    {
      assert entries[..i + 1][..i] == entries[..i];
      if entries[i].status == HealthPassing {
        healthy := healthy + [entries[i]];
      }
    }
    assert entries[..|entries|] == entries;
    if |healthy| != 0 {
      return healthy;
    }
    return entries;
  }

  /** `idx` places the elements of `a`, in order, at positions of `b`. */
  ghost predicate Embeds<T>(idx: seq<nat>, a: seq<T>, b: seq<T>) {
    && |idx| == |a|
    && (forall i :: 0 <= i < |idx| ==> idx[i] < |b| && a[i] == b[idx[i]])
    && (forall i, j :: 0 <= i < j < |idx| ==> idx[i] < idx[j])
  }

  /** `a` is `b` with some elements left out. */
  ghost predicate IsSubsequence<T>(a: seq<T>, b: seq<T>) {
    exists idx :: Embeds(idx, a, b)
  }

  /** The passing entries are a subsequence of the input, all passing, and
      every passing entry occurs in them as often as in the input. */
  lemma {:induction false} PassingFacts(s: seq<ServiceEntry>) returns (idx: seq<nat>)
    ensures Embeds(idx, Passing(s), s)
    ensures forall i :: 0 <= i < |Passing(s)| ==> IsPassing(Passing(s)[i])
    ensures forall e :: IsPassing(e) ==> multiset(Passing(s))[e] == multiset(s)[e]
    decreases |s|
  {
    if s == [] {
      idx := [];
    } else {
      var init, last := s[..|s| - 1], s[|s| - 1];
      assert s == init + [last];
      var idx' := PassingFacts(init);
      if IsPassing(last) {
        idx := idx' + [|s| - 1];
      } else {
        idx := idx';
      }
    }
  }

  /** Some entry passing: the result is exactly the passing ones, in input order. */
  lemma PreferHealthyWhenSomePassing(s: seq<ServiceEntry>)
    requires exists i :: 0 <= i < |s| && IsPassing(s[i])
    ensures PreferHealthy(s) == Passing(s)
    ensures IsSubsequence(PreferHealthy(s), s)
    ensures forall i :: 0 <= i < |PreferHealthy(s)| ==> IsPassing(PreferHealthy(s)[i])
    ensures forall e :: IsPassing(e) ==> multiset(PreferHealthy(s))[e] == multiset(s)[e]
  {
    var idx := PassingFacts(s);
    var i :| 0 <= i < |s| && IsPassing(s[i]);
    assert multiset(s)[s[i]] > 0;
  }

  /** No entry passing: the input is returned unchanged. */
  lemma PreferHealthyWhenNonePassing(s: seq<ServiceEntry>)
    requires forall i :: 0 <= i < |s| ==> !IsPassing(s[i])
    ensures PreferHealthy(s) == s
  {
    NothingPassing(s);
  }

  lemma {:induction false} NothingPassing(s: seq<ServiceEntry>)
    requires forall i :: 0 <= i < |s| ==> !IsPassing(s[i])
    ensures Passing(s) == []
    decreases |s|
  {
    if s != [] {
      NothingPassing(s[..|s| - 1]);
    }
  }

  /** The filter never adds entries and never empties a non-empty input. */
  lemma PreferHealthyNeverAdds(s: seq<ServiceEntry>)
    ensures IsSubsequence(PreferHealthy(s), s)
    ensures |PreferHealthy(s)| <= |s|
    ensures s != [] ==> PreferHealthy(s) != []
  {
    var idx := PassingFacts(s);
    var all := seq(|s|, i requires 0 <= i < |s| => i as nat);
    assert Embeds(all, s, s);
    if |Passing(s)| != 0 {
      SubsequenceShorter(idx, Passing(s), s);
    }
  }

  /** An embedding is no longer than what it embeds into. */
  lemma {:induction false} SubsequenceShorter<T>(idx: seq<nat>, a: seq<T>, b: seq<T>)
    requires Embeds(idx, a, b)
    ensures |a| <= |b|
    decreases |idx|
  {
    if |idx| > 0 {
      var last := idx[|idx| - 1];
      var rest := idx[..|idx| - 1];
      assert forall i :: 0 <= i < |rest| ==> rest[i] < last;
      SubsequenceShorter(rest, a[..|a| - 1], b[..last]);
    }
  }

  // ---------------------------------------------------------------------
  // From entries to addresses (the loop in query)
  // ---------------------------------------------------------------------

  /** The host an entry is reached at: its service address, or its node's
      address when the service address is empty. */
  function HostOf(e: ServiceEntry): string {
    if e.serviceAddress == "" then e.nodeAddress else e.serviceAddress
  }

  /** `host:port` for one entry. */
  function EntryAddress(e: ServiceEntry): Address {
    Address(JoinHostPort(HostOf(e), IntToDecimal(e.servicePort)))
  }

  /** `f` applied to each element, built by appending as the source's loops do. */
  function MapSeq<A, B>(f: A -> B, s: seq<A>): seq<B>
    decreases |s|
  {
    if s == [] then [] else MapSeq(f, s[..|s| - 1]) + [f(s[|s| - 1])]
  }

  lemma {:induction false} MapSeqLength<A, B>(f: A -> B, s: seq<A>)
    ensures |MapSeq(f, s)| == |s|
    decreases |s|
  {
    if s != [] {
      MapSeqLength(f, s[..|s| - 1]);
    }
  }

  lemma {:induction false} MapSeqAt<A, B>(f: A -> B, s: seq<A>, i: nat)
    requires i < |s|
    ensures |MapSeq(f, s)| == |s| && MapSeq(f, s)[i] == f(s[i])
    decreases |s|
  {
    var init := s[..|s| - 1];
    MapSeqLength(f, init);
    if i < |init| {
      MapSeqAt(f, init, i);
      assert s[i] == init[i];
    }
  }

  /** The addresses of a list of entries. */
  function AddressesOf(entries: seq<ServiceEntry>): seq<Address> {
    MapSeq(EntryAddress, entries)
  }

  /** One address per entry, in the same order. */
  lemma AddressesOfAt(entries: seq<ServiceEntry>)
    ensures |AddressesOf(entries)| == |entries|
    ensures forall i :: 0 <= i < |entries| ==> AddressesOf(entries)[i] == EntryAddress(entries[i])
  {
    MapSeqLength(EntryAddress, entries);
    forall i | 0 <= i < |entries|
      ensures AddressesOf(entries)[i] == EntryAddress(entries[i])
    {
      MapSeqAt(EntryAddress, entries, i);
    }
  }

  /** An address names its entry's host and port: splitting it gives them
      back, and the port reads back as the entry's port. */
  lemma EntryAddressDecodes(e: ServiceEntry)
    requires ':' !in HostOf(e) ==> !Bracketed(HostOf(e))
    ensures SplitHostPort(EntryAddress(e).addr) == Some((HostOf(e), IntToDecimal(e.servicePort)))
    ensures ParseInt(IntToDecimal(e.servicePort)) == Some(e.servicePort)
  {
    IntToDecimalRoundTrip(e.servicePort);
  }

  // ---------------------------------------------------------------------
  // query
  // ---------------------------------------------------------------------

  /** The health query a resolver sends: passing-only exactly under `OnlyHealthy`. */
  function RequestFor(c: ResolverConfig, waitIndex: nat): HealthRequest {
    HealthRequest(c.service, c.tags, c.healthFilter == OnlyHealthy, waitIndex)
  }

  /** The entries that are turned into addresses: filtered on the client only
      under `FallbackToUnhealthy`. */
  function Shown(policy: HealthFilter, entries: seq<ServiceEntry>): seq<ServiceEntry> {
    if policy == FallbackToUnhealthy then PreferHealthy(entries) else entries
  }

  /** What `query` returns: addresses, the directory's index, an error. */
  datatype QueryReply = QueryReply(addrs: Slice<Address>, lastIndex: nat, err: Option<QueryError>)

  function QueryResult(policy: HealthFilter, reply: DirectoryReply): QueryReply {
    match reply
    case Error(e) => QueryReply(Nil, 0, Some(e))
    case Entries(entries, lastIndex) => QueryReply(NonNil(AddressesOf(Shown(policy, entries))), lastIndex, None)
  }

  /** The loop in `query`: one address per entry, from its host and
      decimal port, appended in entry order. */
  method EntryAddresses(services: seq<ServiceEntry>) returns (result: seq<Address>)
    ensures result == AddressesOf(services)
  {
    result := [];
    for i := 0 to |services|
      invariant result == MapSeq(EntryAddress, services[..i])
    {
      assert services[..i + 1][..i] == services[..i];
      var e := services[i];
      var addr := e.serviceAddress;
      if addr == "" {
        addr := e.nodeAddress;
      }
      assert addr == HostOf(e);
      var address := Address(JoinHostPort(addr, IntToDecimal(e.servicePort)));
      assert address == EntryAddress(e);
      result := result + [address];
    }
    assert services[..|services|] == services;
  }

  /** `query`: sends the health request for the cursor `waitIndex`; on an
      error returns a nil list and index 0; otherwise filters the entries
      under `FallbackToUnhealthy` and maps each to its address. */
  method Query(c: ResolverConfig, waitIndex: nat, reply: DirectoryReply)
    returns (request: HealthRequest, addrs: Slice<Address>, index: nat, err: Option<QueryError>)
    ensures request == RequestFor(c, waitIndex)
    ensures QueryReply(addrs, index, err) == QueryResult(c.healthFilter, reply)
  {
    request := HealthRequest(c.service, c.tags, c.healthFilter == OnlyHealthy, waitIndex);
    match reply
    case Error(e) =>
      return request, Nil, 0, Some(e);
    case Entries(services, lastIndex) =>
      if c.healthFilter == FallbackToUnhealthy {
        services := FilterPreferOnlyHealthy(services);
      }
      var result := EntryAddresses(services);
      return request, NonNil(result), lastIndex, None;
  }

  /** A failed query gives a nil list and index 0; a successful one a
      non-nil list, possibly empty, with one address per shown entry in
      order, where the client filter runs only under `FallbackToUnhealthy`. */
  lemma QueryReplyShape(policy: HealthFilter, reply: DirectoryReply)
    ensures reply.Error? ==> QueryResult(policy, reply) == QueryReply(Nil, 0, Some(reply.error))
    ensures reply.Entries? ==>
      var r := QueryResult(policy, reply);
      var shown := Shown(policy, reply.entries);
      && r.err == None && r.lastIndex == reply.lastIndex && r.addrs.NonNil?
      && |r.addrs.items| == |shown|
      && forall i :: 0 <= i < |shown| ==> r.addrs.items[i] == EntryAddress(shown[i])
  {
    if reply.Entries? {
      AddressesOfAt(Shown(policy, reply.entries));
    }
  }

  // ---------------------------------------------------------------------
  // addressesEqual
  // ---------------------------------------------------------------------

  /** Equal as `addressesEqual` sees it: both nil, or both non-nil with the
      same `Addr` at every position. */
  predicate AddrListsEqual(a: Slice<Address>, b: Slice<Address>) {
    match (a, b)
    case (Nil, Nil) => true
    case (NonNil(xs), NonNil(ys)) => |xs| == |ys| && forall i :: 0 <= i < |xs| ==> xs[i].addr == ys[i].addr
    case _ => false
  }

  /** `addressesEqual`: false when exactly one list is nil, otherwise equal
      lengths and equal `Addr` at every index. */
  method AddressesEqual(a: Slice<Address>, b: Slice<Address>) returns (eq: bool)
    ensures eq <==> AddrListsEqual(a, b)
  {
    if a.Nil? && b.NonNil? {
      return false;
    }
    if a.NonNil? && b.Nil? {
      return false;
    }
    var xs, ys := a.Elements(), b.Elements();
    if |xs| != |ys| {
      return false;
    }
    for i := 0 to |xs|
      invariant forall j :: 0 <= j < i ==> xs[j].addr == ys[j].addr
    {
      if xs[i].addr != ys[i].addr {
        return false;
      }
    }
    return true;
  }

  /** The comparison is equality of the lists, nil and empty kept apart;
      hence it is reflexive and symmetric. */
  lemma AddrListsEqualIsEquality(a: Slice<Address>, b: Slice<Address>)
    ensures AddrListsEqual(a, b) <==> a == b
    ensures AddrListsEqual(a, a)
    ensures AddrListsEqual(a, b) == AddrListsEqual(b, a)
    ensures !AddrListsEqual(Nil, NonNil([]))
  {
    if a.NonNil? && b.NonNil? && AddrListsEqual(a, b) {
      assert forall i :: 0 <= i < |a.items| ==> a.items[i] == b.items[i];
    }
  }

  // ---------------------------------------------------------------------
  // The watcher loop
  // ---------------------------------------------------------------------

  /** The loop's state: the blocking cursor and the last delivered list. */
  datatype WatchState = WatchState(waitIndex: nat, lastReported: Slice<Address>)

  /** `start` and `ResolveNow` begin with cursor 0 and a nil list. */
  const Start: WatchState := WatchState(0, Nil)

  /** What one iteration does towards the consumer: return from the loop,
      report an error, nothing, or deliver a new address list. */
  datatype Action = Stop | ReportError(error: QueryError) | Idle | Deliver(addrs: seq<Address>)

  /** The request sent, the state after, and the action of one iteration. */
  datatype Transition = Transition(request: HealthRequest, next: WatchState, action: Action)

  /** One iteration of `watcher`. */
  function Step(c: ResolverConfig, s: WatchState, reply: DirectoryReply): (t: Transition)
    ensures t.request == RequestFor(c, s.waitIndex)
    ensures t.action == Stop <==> reply == Error(Canceled)
    ensures reply.Error? && reply.error != Canceled ==>
      t.action == ReportError(reply.error) && t.next == WatchState(0, s.lastReported)
    ensures reply.Entries? && reply.lastIndex < s.waitIndex ==>
      t.action == Idle && t.next == WatchState(0, s.lastReported)
    ensures reply.Entries? && s.waitIndex <= reply.lastIndex ==> t.next.waitIndex == reply.lastIndex
    ensures t.action.Deliver? <==>
      reply.Entries? && s.waitIndex <= reply.lastIndex
      && s.lastReported != NonNil(AddressesOf(Shown(c.healthFilter, reply.entries)))
    ensures t.action.Deliver? ==>
      t.action.addrs == AddressesOf(Shown(c.healthFilter, reply.entries)) && t.next.lastReported == NonNil(t.action.addrs)
    ensures !t.action.Deliver? ==> t.next.lastReported == s.lastReported
    ensures reply.Entries? ==> t.action.Idle? || t.action.Deliver?
  {
    var q := QueryResult(c.healthFilter, reply);
    var request := RequestFor(c, s.waitIndex);
    AddrListsEqualIsEquality(q.addrs, s.lastReported);
    if q.err.Some? then
      if q.err.value == Canceled then Transition(request, WatchState(q.lastIndex, s.lastReported), Stop)
      else Transition(request, WatchState(q.lastIndex, s.lastReported), ReportError(q.err.value))
    else if q.lastIndex < s.waitIndex then Transition(request, WatchState(0, s.lastReported), Idle)
    else if AddrListsEqual(q.addrs, s.lastReported) then Transition(request, WatchState(q.lastIndex, s.lastReported), Idle)
    else Transition(request, WatchState(q.lastIndex, q.addrs), Deliver(q.addrs.Elements()))
  }

  /** The actions of the loop fed with `replies` in turn, up to and including
      the first cancellation. */
  function Run(c: ResolverConfig, s: WatchState, replies: seq<DirectoryReply>): (actions: seq<Action>)
    ensures |actions| <= |replies|
    ensures |actions| < |replies| ==> |actions| > 0 && actions[|actions| - 1] == Stop
    decreases |replies|
  {
    if replies == [] then []
    else
      var t := Step(c, s, replies[0]);
      if t.action == Stop then [Stop] else [t.action] + Run(c, t.next, replies[1..])
  }

  /** Each action answers the reply at the same position: only the first
      cancellation stops, and it is the last action; other errors are
      reported; errors never deliver. */
  lemma {:induction false} RunActions(c: ResolverConfig, s: WatchState, replies: seq<DirectoryReply>, i: nat)
    requires i < |Run(c, s, replies)|
    ensures i < |Run(c, s, replies)| - 1 ==> Run(c, s, replies)[i] != Stop
    ensures replies[i].Error? ==>
      Run(c, s, replies)[i] == (if replies[i].error == Canceled then Stop else ReportError(replies[i].error))
    ensures replies[i].Entries? ==> Run(c, s, replies)[i].Idle? || Run(c, s, replies)[i].Deliver?
    decreases |replies|
  {
    var t := Step(c, s, replies[0]);
    if i > 0 {
      RunActions(c, t.next, replies[1..], i - 1);
    }
  }

  /** The first iteration of a run, and the run of the rest. */
  lemma RunUnfold(c: ResolverConfig, s: WatchState, replies: seq<DirectoryReply>)
    requires replies != []
    ensures var t := Step(c, s, replies[0]);
      Run(c, s, replies) == [t.action] + (if t.action == Stop then [] else Run(c, t.next, replies[1..]))
  {
  }

  /** The address lists handed to the consumer, in order. */
  function Deliveries(actions: seq<Action>): seq<seq<Address>>
    decreases |actions|
  {
    if actions == [] then []
    else (if actions[0].Deliver? then [actions[0].addrs] else []) + Deliveries(actions[1..])
  }

  /** No two consecutive entries are equal. */
  ghost predicate NoRepeats(ds: seq<seq<Address>>) {
    forall i :: 0 <= i < |ds| - 1 ==> ds[i] != ds[i + 1]
  }

  /** The loop never delivers the same list twice in a row, and its first
      delivery differs from the list delivered before it started. */
  lemma {:induction false} RunNeverRepeats(c: ResolverConfig, s: WatchState, replies: seq<DirectoryReply>)
    ensures NoRepeats(Deliveries(Run(c, s, replies)))
    ensures |Deliveries(Run(c, s, replies))| > 0 ==> s.lastReported != NonNil(Deliveries(Run(c, s, replies))[0])
    decreases |replies|
  {
    if replies != [] {
      var t := Step(c, s, replies[0]);
      if t.action != Stop {
        RunNeverRepeats(c, t.next, replies[1..]);
        var rest := Run(c, t.next, replies[1..]);
        assert ([t.action] + rest)[1..] == rest;
      }
    }
  }

  /** After errors only, the first successful query is delivered, even when
      it gives no address: a nil list differs from every non-nil one. */
  lemma {:induction false} FirstSuccessDelivered(c: ResolverConfig, replies: seq<DirectoryReply>, i: nat)
    requires i < |replies| && replies[i].Entries?
    requires forall j :: 0 <= j < i ==> replies[j].Error? && replies[j].error != Canceled
    ensures |Run(c, Start, replies)| > i
    ensures Run(c, Start, replies)[i] == Deliver(AddressesOf(Shown(c.healthFilter, replies[i].entries)))
    decreases i
  {
    if i > 0 {
      var t := Step(c, Start, replies[0]);
      assert t.next == Start;
      FirstSuccessDelivered(c, replies[1..], i - 1);
    }
  }

  /** While every answer is empty, a state that already delivered the empty
      list delivers nothing more. */
  lemma {:induction false} EmptyRepliesQuiet(c: ResolverConfig, s: WatchState, replies: seq<DirectoryReply>)
    requires s.lastReported == NonNil([])
    requires forall j :: 0 <= j < |replies| ==> replies[j].Entries? && replies[j].entries == []
    ensures Deliveries(Run(c, s, replies)) == []
    decreases |replies|
  {
    if replies != [] {
      var t := Step(c, s, replies[0]);
      assert Shown(c.healthFilter, []) == [];
      EmptyRepliesQuiet(c, t.next, replies[1..]);
      assert ([t.action] + Run(c, t.next, replies[1..]))[1..] == Run(c, t.next, replies[1..]);
    }
  }

  /** A service with no instances: exactly one delivery, of the empty list,
      however many times the directory answers. */
  lemma EmptyRepliesDeliverOnce(c: ResolverConfig, replies: seq<DirectoryReply>)
    requires forall j :: 0 <= j < |replies| ==> replies[j].Entries? && replies[j].entries == []
    ensures Deliveries(Run(c, Start, replies)) == if replies == [] then [] else [[]]
  {
    if replies != [] {
      var t := Step(c, Start, replies[0]);
      assert Shown(c.healthFilter, []) == [];
      EmptyRepliesQuiet(c, t.next, replies[1..]);
      assert ([t.action] + Run(c, t.next, replies[1..]))[1..] == Run(c, t.next, replies[1..]);
    }
  }

  /** A watch under `FallbackToUnhealthy`: with one entry passing and one
      critical the passing one is delivered; once both are critical both are. */
  lemma FallbackScenario(a: ServiceEntry, b: ServiceEntry, i1: nat, i2: nat)
    requires IsPassing(a) && !IsPassing(b) && i1 <= i2
    ensures
      var c := ResolverConfig("billing.grpc", Nil, FallbackToUnhealthy);
      var a' := a.(status := "critical");
      Run(c, Start, [Entries([a, b], i1), Entries([a', b], i2)])
        == [Deliver([EntryAddress(a)]), Deliver([EntryAddress(a), EntryAddress(b)])]
  {
    var c := ResolverConfig("billing.grpc", Nil, FallbackToUnhealthy);
    var a' := a.(status := "critical");
    var replies := [Entries([a, b], i1), Entries([a', b], i2)];
    var s1 := WatchState(i1, NonNil([EntryAddress(a)]));
    FallbackFirst(c, a, b, i1);
    FallbackSecond(c, a, a', b, i1, i2);
    RunUnfold(c, Start, replies);
    RunUnfold(c, s1, replies[1..]);
    assert replies[1..][1..] == [];
  }

  /** The first reply of the scenario: only `a` passes, so only its address is delivered. */
  lemma FallbackFirst(c: ResolverConfig, a: ServiceEntry, b: ServiceEntry, i1: nat)
    requires c.healthFilter == FallbackToUnhealthy && IsPassing(a) && !IsPassing(b)
    ensures Step(c, Start, Entries([a, b], i1)).action == Deliver([EntryAddress(a)])
    ensures Step(c, Start, Entries([a, b], i1)).next == WatchState(i1, NonNil([EntryAddress(a)]))
  {
    assert [a, b][..1] == [a] && [a][..0] == [];
    assert Passing([a]) == [a];
    assert Passing([a, b]) == [a];
    assert Shown(c.healthFilter, [a, b]) == [a];
    MapSeqAt(EntryAddress, [a], 0);
    assert AddressesOf([a]) == [EntryAddress(a)];
  }

  /** The second reply: nothing passes, so both addresses are delivered. */
  lemma FallbackSecond(c: ResolverConfig, a: ServiceEntry, a': ServiceEntry, b: ServiceEntry, i1: nat, i2: nat)
    requires c.healthFilter == FallbackToUnhealthy && a' == a.(status := "critical") && !IsPassing(b) && i1 <= i2
    ensures Step(c, WatchState(i1, NonNil([EntryAddress(a)])), Entries([a', b], i2)).action
      == Deliver([EntryAddress(a), EntryAddress(b)])
  {
    assert [a', b][..1] == [a'] && [a'][..0] == [];
    assert Passing([a']) == [];
    assert Passing([a', b]) == [];
    assert Shown(c.healthFilter, [a', b]) == [a', b];
    MapSeqAt(EntryAddress, [a', b], 0);
    MapSeqAt(EntryAddress, [a', b], 1);
    assert HostOf(a') == HostOf(a) && a'.servicePort == a.servicePort;
    var addrs := AddressesOf([a', b]);
    assert addrs == [EntryAddress(a), EntryAddress(b)];
    assert NonNil([EntryAddress(a)]) != NonNil(addrs);
  }

  /** The loop's local state in `watcher`. */
  class Watcher {
    const config: ResolverConfig
    var waitIndex: nat
    var lastReported: Slice<Address>

    function State(): WatchState
      reads this
    {
      WatchState(waitIndex, lastReported)
    }

    /** A watch as `start` begins it: cursor 0, nothing delivered (a nil list). */
    constructor (config: ResolverConfig)
      ensures this.config == config && State() == Start
    {
      this.config := config;
      waitIndex := 0;
      lastReported := Nil;
    }

    /** One pass of the loop body: query with the current cursor, which the
        query's index then replaces; on cancellation return; on another
        error report it; on an index that went back reset the cursor to 0;
        deliver only a list that differs from the last one delivered. */
    method Iterate(reply: DirectoryReply) returns (request: HealthRequest, action: Action)
      modifies this
      ensures Step(config, old(State()), reply) == Transition(request, State(), action)
    {
      var lastWaitIndex := waitIndex;
      var addrs, err;
      request, addrs, waitIndex, err := Query(config, waitIndex, reply);
      if err.Some? {
        if err.value == Canceled {
          return request, Stop;
        }
        return request, ReportError(err.value);
      }
      if waitIndex < lastWaitIndex {
        waitIndex := 0;
        return request, Idle;
      }
      var same := AddressesEqual(addrs, lastReported);
      if same {
        return request, Idle;
      }
      lastReported := addrs;
      return request, Deliver(addrs.Elements());
    }
  }

  /** `watcher`, fed the directory's answers one per iteration until they
      run out or a query is cancelled; returns what it did, in order. */
  method Watch(c: ResolverConfig, replies: seq<DirectoryReply>) returns (actions: seq<Action>)
    ensures actions == Run(c, Start, replies)
    ensures NoRepeats(Deliveries(actions))
  {
    var w := new Watcher(c);
    actions := [];
    var i := 0;
    var stopped := false;
    while i < |replies| && !stopped
      invariant 0 <= i <= |replies|
      invariant w.config == c
      invariant stopped ==> actions == Run(c, Start, replies)
      invariant !stopped ==> actions + Run(c, w.State(), replies[i..]) == Run(c, Start, replies)
      decreases |replies| - i, !stopped
    {
      ghost var rest := replies[i..];
      assert rest[0] == replies[i] && rest[1..] == replies[i + 1..];
      RunUnfold(c, w.State(), rest);
      ghost var before := w.State();
      ghost var prefix := actions;
      var request, action := w.Iterate(replies[i]);
      assert Step(c, before, rest[0]) == Transition(request, w.State(), action);
      actions := actions + [action];
      assert action != Stop ==> actions + Run(c, w.State(), replies[i + 1..]) == prefix + Run(c, before, rest);
      stopped := action == Stop;
      i := i + 1;
    }
    assert !stopped ==> replies[i..] == [];
    RunNeverRepeats(c, Start, replies);
  }
}
