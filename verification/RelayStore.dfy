/**
 The relay's in-memory store: pairing codes, nodes, and the mutes and
 last-sent records it keeps under flat string keys.
 */
module RelayStore {
  import opened Common
  import opened AlertProto
  import opened Delivery

  // --- flat keys --------------------------------------------------------------

  const NUL := '\0'

  predicate NulFree(s: string) { NUL !in s }

  function Key(id: string, alert: string): string { id + [NUL] + alert }

  /** The test DeleteNode applies to every stored key. */
  predicate UnderId(k: string, id: string) {
    |k| > |id| && k[..|id|] == id && k[|id|] == NUL
  }

  function WithoutId<V>(m: map<string, V>, id: string): map<string, V> {
    map k | k in m && !UnderId(k, id) :: m[k]
  }

  function FirstNul(s: string): (n: nat)
    ensures n <= |s|
    ensures forall i | 0 <= i < n :: s[i] != NUL
    ensures n < |s| ==> s[n] == NUL
  {
    if s == [] || s[0] == NUL then 0 else 1 + FirstNul(s[1..])
  }

  lemma FirstNulOfKey(id: string, alert: string)
    requires NulFree(id)
    ensures FirstNul(Key(id, alert)) == |id|
  {
    var k := Key(id, alert);
    assert k[|id|] == NUL;
    assert forall i | 0 <= i < |id| :: k[i] == id[i] && id[i] in id;
  }

  /** Keys of NUL-free ids name one (id, alert) pair. */
  lemma KeyInjective(id: string, alert: string, id': string, alert': string)
    requires NulFree(id) && NulFree(id') && Key(id, alert) == Key(id', alert')
    ensures id == id' && alert == alert'
  {
    var k := Key(id, alert);
    FirstNulOfKey(id, alert);
    FirstNulOfKey(id', alert');
    assert k[..|id|] == id && k[..|id'|] == id' && k[|id| + 1..] == alert && k[|id'| + 1..] == alert';
  }

  /** DeleteNode's prefix test picks exactly the keys of that id, also when one id begins with another. */
  lemma UnderIdExact(id: string, alert: string, other: string)
    requires NulFree(id) && NulFree(other)
    ensures UnderId(Key(id, alert), other) <==> id == other
  {
    var k := Key(id, alert);
    if id == other {
      assert k[..|other|] == other;
    } else if UnderId(k, other) {
      assert k == Key(other, k[|other| + 1..]);
      KeyInjective(id, alert, other, k[|other| + 1..]);
    }
  }

  /** The store operations that touch a keyed map. */
  datatype Op<V> = Put(id: string, alert: string, value: V) | Clear(id: string, alert: string) | Drop(id: string)

  function FlatOp<V>(m: map<string, V>, op: Op<V>): map<string, V> {
    match op
    case Put(id, alert, v) => m[Key(id, alert) := v]
    case Clear(id, alert) => m - {Key(id, alert)}
    case Drop(id) => WithoutId(m, id)
  }

  /** The same operations on a map from id to a map from alert. */
  function NestedOp<V>(n: map<string, map<string, V>>, op: Op<V>): map<string, map<string, V>> {
    match op
    case Put(id, alert, v) => n[id := Inner(n, id)[alert := v]]
    case Clear(id, alert) => n[id := Inner(n, id) - {alert}]
    case Drop(id) => n - {id}
  }

  function Inner<V>(n: map<string, map<string, V>>, id: string): map<string, V> {
    if id in n then n[id] else map[]
  }

  function FlatRun<V>(m: map<string, V>, ops: seq<Op<V>>): map<string, V>
    decreases |ops|
  {
    if ops == [] then m else FlatRun(FlatOp(m, ops[0]), ops[1..])
  }

  function NestedRun<V>(n: map<string, map<string, V>>, ops: seq<Op<V>>): map<string, map<string, V>>
    decreases |ops|
  {
    if ops == [] then n else NestedRun(NestedOp(n, ops[0]), ops[1..])
  }

  /** Every lookup in the flat map gives what the nested map holds. */
  ghost predicate Represents<V(!new)>(m: map<string, V>, n: map<string, map<string, V>>) {
    forall id, alert | NulFree(id) :: Find(m, Key(id, alert)) == Find(Inner(n, id), alert)
  }

  /** One operation, seen through one lookup. */
  lemma OpThroughLookup<V>(m: map<string, V>, n: map<string, map<string, V>>, op: Op<V>, id: string, alert: string)
    requires NulFree(op.id) && NulFree(id)
    requires Find(m, Key(id, alert)) == Find(Inner(n, id), alert)
    ensures Find(FlatOp(m, op), Key(id, alert)) == Find(Inner(NestedOp(n, op), id), alert)
  {
    match op
    case Put(i, a, v) =>
      if Key(id, alert) == Key(i, a) {
        KeyInjective(id, alert, i, a);
      }
    case Clear(i, a) =>
      if Key(id, alert) == Key(i, a) {
        KeyInjective(id, alert, i, a);
      }
    case Drop(i) =>
      UnderIdExact(id, alert, i);
  }

  /** Over any run of operations on NUL-free ids the flat map behaves as the nested one. */
  lemma {:induction false} FlatRunRepresents<V(!new)>(m: map<string, V>, n: map<string, map<string, V>>, ops: seq<Op<V>>)
    requires Represents(m, n) && forall i | 0 <= i < |ops| :: NulFree(ops[i].id)
    ensures Represents(FlatRun(m, ops), NestedRun(n, ops))
    decreases |ops|
  {
    if ops != [] {
      forall id, alert | NulFree(id)
        ensures Find(FlatOp(m, ops[0]), Key(id, alert)) == Find(Inner(NestedOp(n, ops[0]), id), alert)
      {
        OpThroughLookup(m, n, ops[0], id, alert);
      }
      FlatRunRepresents(FlatOp(m, ops[0]), NestedOp(n, ops[0]), ops[1..]);
    }
  }

  /** The ids the relay issues and accepts: "n_" and 16 hex digits. */
  predicate ValidNodeId(id: string) {
    && |id| == 18 && id[..2] == "n_"
    && forall i | 2 <= i < |id| :: '0' <= id[i] <= '9' || 'a' <= id[i] <= 'f'
  }

  lemma ValidNodeIdIsNulFree(id: string)
    requires ValidNodeId(id)
    ensures NulFree(id)
  {
    assert id[0] == id[..2][0] == 'n' && id[1] == id[..2][1] == '_';
  }

  // --- pairing codes ------------------------------------------------------------

  const MAX_CODES_PER_CHAT := 5

  datatype CodeRec = CodeRec(chatID: int, expires: Time, used: bool)

  predicate Live(c: CodeRec, chatID: int, now: Time) {
    c.chatID == chatID && !c.used && c.expires > now
  }

  function LiveCodes(codes: map<string, CodeRec>, chatID: int, now: Time): set<string> {
    set k | k in codes && Live(codes[k], chatID, now)
  }

  datatype CodeEvent =
    | Create(code: string, now: Time, chatID: int, expires: Time)
    | Consume(code: string, now: Time)

  /** Whether the store accepts the event. */
  predicate Accepts(codes: map<string, CodeRec>, e: CodeEvent) {
    match e
    case Create(code, now, chatID, expires) => |LiveCodes(codes, chatID, now)| < MAX_CODES_PER_CHAT
    case Consume(code, now) => code in codes && !codes[code].used && codes[code].expires > now
  }

  function AfterCode(codes: map<string, CodeRec>, e: CodeEvent): map<string, CodeRec> {
    if !Accepts(codes, e) then codes
    else
      match e
      case Create(code, _, chatID, expires) => codes[code := CodeRec(chatID, expires, false)]
      case Consume(code, _) => codes[code := codes[code].(used := true)]
  }

  /** The codes after the first `k` events of a run from an empty store. */
  function CodesAfter(events: seq<CodeEvent>, k: nat): map<string, CodeRec>
    requires k <= |events|
  {
    if k == 0 then map[] else AfterCode(CodesAfter(events, k - 1), events[k - 1])
  }

  predicate Succeeds(events: seq<CodeEvent>, i: nat)
    requires i < |events|
  {
    Accepts(CodesAfter(events, i), events[i])
  }

  /** How many of the first `k` events of a kind succeeded on `code`. */
  function Successes(events: seq<CodeEvent>, k: nat, code: string, creations: bool): nat
    requires k <= |events|
  {
    if k == 0 then 0
    else
      (if events[k - 1].code == code && events[k - 1].Create? == creations && Succeeds(events, k - 1) then 1 else 0)
      + Successes(events, k - 1, code, creations)
  }

  predicate Redeemable(codes: map<string, CodeRec>, code: string) {
    code in codes && !codes[code].used
  }

  /** A code is never redeemed more often than it was issued, and a code still unused is one issue in hand. */
  lemma {:induction false} CodesConserved(events: seq<CodeEvent>, k: nat, code: string)
    requires k <= |events|
    ensures Successes(events, k, code, false) + (if Redeemable(CodesAfter(events, k), code) then 1 else 0)
         <= Successes(events, k, code, true)
  {
    if k > 0 {
      CodesConserved(events, k - 1, code);
    }
  }

  lemma {:induction false} UnusedHasIssue(events: seq<CodeEvent>, k: nat, code: string) returns (j: nat)
    requires k <= |events| && Redeemable(CodesAfter(events, k), code)
    ensures j < k && events[j].Create? && events[j].code == code && Succeeds(events, j)
    ensures CodesAfter(events, k)[code].expires == events[j].expires
    ensures CodesAfter(events, k)[code].chatID == events[j].chatID
    ensures forall i | j < i < k && events[i].code == code :: !Succeeds(events, i)
  {
    if events[k - 1].code == code && Succeeds(events, k - 1) {
      j := k - 1;
    } else {
      j := UnusedHasIssue(events, k - 1, code);
    }
  }

  /**
   Every redemption is matched with the issue it spends: before that issue's
   expiry, for its chat, and with no other success on the code in between.
   */
  lemma RedemptionSpendsAnIssue(events: seq<CodeEvent>, i: nat) returns (j: nat)
    requires i < |events| && events[i].Consume? && Succeeds(events, i)
    ensures j < i && events[j].Create? && events[j].code == events[i].code && Succeeds(events, j)
    ensures events[i].now < events[j].expires
    ensures CodesAfter(events, i)[events[i].code].chatID == events[j].chatID
    ensures forall k | j < k < i && events[k].code == events[i].code :: !Succeeds(events, k)
  {
    j := UnusedHasIssue(events, i, events[i].code);
  }

  /** The `j`-th event issued `code`, and nothing succeeded on it from then until the `k`-th. */
  ghost predicate IsIssue(events: seq<CodeEvent>, j: nat, k: nat, code: string)
    requires k <= |events|
  {
    && j < k && events[j].Create? && events[j].code == code && Succeeds(events, j)
    && forall i | j < i < k && events[i].code == code :: !Succeeds(events, i)
  }

  lemma {:induction false} IssueStays(events: seq<CodeEvent>, j: nat, k: nat, code: string)
    requires k <= |events| && IsIssue(events, j, k, code)
    ensures Find(CodesAfter(events, k), code) == Some(CodeRec(events[j].chatID, events[j].expires, false))
    decreases k
  {
    if k > j + 1 {
      assert IsIssue(events, j, k - 1, code);
      IssueStays(events, j, k - 1, code);
    }
  }

  /** A redemption succeeds exactly when the code's last issue has not run out and nothing has succeeded on it since. */
  lemma {:induction false} RedeemedIff(events: seq<CodeEvent>, i: nat)
    requires i < |events| && events[i].Consume?
    ensures Succeeds(events, i)
       <==> exists j: nat :: IsIssue(events, j, i, events[i].code) && events[i].now < events[j].expires
  {
    if Succeeds(events, i) {
      var j := UnusedHasIssue(events, i, events[i].code);
      assert IsIssue(events, j, i, events[i].code);
    }
    forall j: nat | IsIssue(events, j, i, events[i].code) && events[i].now < events[j].expires ensures Succeeds(events, i) {
      IssueStays(events, j, i, events[i].code);
    }
  }

  /** The code was issued for the chat, has not run out and was not redeemed since. */
  ghost predicate Outstanding(events: seq<CodeEvent>, k: nat, code: string, chatID: int, now: Time)
    requires k <= |events|
  {
    exists j: nat :: IsIssue(events, j, k, code) && events[j].chatID == chatID && now < events[j].expires
  }

  ghost function OutstandingCodes(events: seq<CodeEvent>, k: nat, chatID: int, now: Time): set<string>
    requires k <= |events|
  {
    set i | 0 <= i < k && Outstanding(events, k, events[i].code, chatID, now) :: events[i].code
  }

  lemma {:induction false} LiveIsOutstanding(events: seq<CodeEvent>, k: nat, code: string, chatID: int, now: Time)
    requires k <= |events|
    ensures code in LiveCodes(CodesAfter(events, k), chatID, now) <==> Outstanding(events, k, code, chatID, now)
  {
    if code in LiveCodes(CodesAfter(events, k), chatID, now) {
      var j := UnusedHasIssue(events, k, code);
      assert IsIssue(events, j, k, code);
    }
    forall j: nat | IsIssue(events, j, k, code) && events[j].chatID == chatID && now < events[j].expires
      ensures code in LiveCodes(CodesAfter(events, k), chatID, now)
    {
      IssueStays(events, j, k, code);
    }
  }

  /** A code is issued exactly when fewer than five of the chat's codes are outstanding. */
  lemma {:induction false} IssuedIff(events: seq<CodeEvent>, i: nat)
    requires i < |events| && events[i].Create?
    ensures Succeeds(events, i) <==> |OutstandingCodes(events, i, events[i].chatID, events[i].now)| < 5
  {
    var live := LiveCodes(CodesAfter(events, i), events[i].chatID, events[i].now);
    var out := OutstandingCodes(events, i, events[i].chatID, events[i].now);
    forall code ensures code in live <==> code in out {
      LiveIsOutstanding(events, i, code, events[i].chatID, events[i].now);
      if j: nat :| IsIssue(events, j, i, code) && events[j].chatID == events[i].chatID && events[i].now < events[j].expires {
        assert events[j].code == code;
      }
    }
    assert live == out;
  }

  ghost predicate CodeClock(events: seq<CodeEvent>) {
    forall i, j | 0 <= i <= j < |events| :: events[i].now <= events[j].now
  }

  /** Under one nondecreasing clock a chat never holds more unused, unexpired codes than the bound. */
  lemma {:induction false} LiveCodesBounded(events: seq<CodeEvent>, k: nat, chatID: int, now: Time)
    requires k <= |events| && CodeClock(events) && (k > 0 ==> events[k - 1].now <= now)
    ensures |LiveCodes(CodesAfter(events, k), chatID, now)| <= MAX_CODES_PER_CHAT
  {
    if k > 0 {
      var e, before := events[k - 1], CodesAfter(events, k - 1);
      var live, liveBefore := LiveCodes(CodesAfter(events, k), chatID, now), LiveCodes(before, chatID, e.now);
      LiveCodesBounded(events, k - 1, chatID, e.now);
      if Accepts(before, e) && e.Create? && e.chatID == chatID {
        SubsetSize(live, liveBefore + {e.code});
      } else {
        SubsetSize(live, liveBefore);
      }
    }
  }

  // --- the store ---------------------------------------------------------------------

  /** A paired node, without the fields no modelled decision reads. */
  datatype Node = Node(id: string, chatID: int, name: string, lastSeen: Time, silent: bool, blocked: bool, summary: string)

  predicate NameTaken(nodes: map<string, Node>, n: Node) {
    exists id | id in nodes :: nodes[id].chatID == n.chatID && nodes[id].name == n.name
  }

  predicate MutedIn(mutes: map<string, Time>, id: string, alert: string, now: Time) {
    || (Key(id, alert) in mutes && mutes[Key(id, alert)] > now)
    || (Key(id, "all") in mutes && mutes[Key(id, "all")] > now)
  }

  /** An alert is muted exactly by a mute still running, of itself or of all, under the same id. */
  lemma MutedIff(mutes: map<string, Time>, n: map<string, map<string, Time>>, id: string, alert: string, now: Time)
    requires Represents(mutes, n) && NulFree(id)
    ensures MutedIn(mutes, id, alert, now)
       <==> exists a | a in Inner(n, id) :: (a == alert || a == "all") && Inner(n, id)[a] > now
  {
    assert Find(mutes, Key(id, alert)) == Find(Inner(n, id), alert);
    assert Find(mutes, Key(id, "all")) == Find(Inner(n, id), "all");
  }

  predicate IsCandidate(n: Node, before: Time) {
    !n.silent && n.lastSeen < before
  }

  /** `out` lists exactly the silence candidates among `nodes`, each once. */
  ghost predicate Candidates(nodes: map<string, Node>, before: Time, out: seq<Node>) {
    && (forall i | 0 <= i < |out| :: out[i].id in nodes && nodes[out[i].id] == out[i] && IsCandidate(out[i], before))
    && (forall i, j | 0 <= i < j < |out| :: out[i].id != out[j].id)
    && (forall id | id in nodes && IsCandidate(nodes[id], before) :: nodes[id] in out)
  }

  class MemoryStore {
    var codes: map<string, CodeRec>
    var nodes: map<string, Node>
    var mutes: map<string, Time>
    var lastSent: map<string, SentRec>

    constructor ()
      ensures codes == map[] && nodes == map[] && mutes == map[] && lastSent == map[]
    {
      codes, nodes, mutes, lastSent := map[], map[], map[], map[];
    }

    method CreateCode(chatID: int, code: string, expires: Time, now: Time) returns (ok: bool)
      modifies this`codes
      ensures ok == Accepts(old(codes), Create(code, now, chatID, expires))
      ensures codes == AfterCode(old(codes), Create(code, now, chatID, expires))
    {
      var unused := 0;
      var todo := codes.Keys;
      ghost var counted := {};
      while todo != {}
        invariant todo <= codes.Keys && unused == |counted|
        invariant counted == set k | k in codes && k !in todo && Live(codes[k], chatID, now)
      {
        var k :| k in todo;
        if Live(codes[k], chatID, now) {
          unused := unused + 1;
          counted := counted + {k};
        }
        todo := todo - {k};
      }
      assert counted == LiveCodes(codes, chatID, now);
      if unused >= MAX_CODES_PER_CHAT {
        return false;
      }
      codes := codes[code := CodeRec(chatID, expires, false)];
      return true;
    }

    method ConsumeCode(code: string, now: Time) returns (chatID: Option<int>)
      modifies this`codes
      ensures chatID == if Accepts(old(codes), Consume(code, now)) then Some(old(codes)[code].chatID) else None
      ensures codes == AfterCode(old(codes), Consume(code, now))
    {
      if code !in codes || codes[code].used || codes[code].expires <= now {
        return None;
      }
      var c := codes[code];
      codes := codes[code := c.(used := true)];
      return Some(c.chatID);
    }

    method CreateNode(n: Node) returns (ok: bool)
      modifies this`nodes
      ensures ok == !NameTaken(old(nodes), n)
      ensures nodes == if ok then old(nodes)[n.id := n] else old(nodes)
    {
      var todo := nodes.Keys;
      while todo != {}
        invariant todo <= nodes.Keys && nodes == old(nodes)
        invariant forall id | id in nodes && id !in todo :: !(nodes[id].chatID == n.chatID && nodes[id].name == n.name)
      {
        var id :| id in todo;
        if nodes[id].chatID == n.chatID && nodes[id].name == n.name {
          return false;
        }
        todo := todo - {id};
      }
      nodes := nodes[n.id := n];
      return true;
    }

    method UpdateNode(n: Node) returns (ok: bool)
      modifies this`nodes
      ensures ok == (n.id in old(nodes))
      ensures nodes == if ok then old(nodes)[n.id := n] else old(nodes)
    {
      if n.id !in nodes {
        return false;
      }
      nodes := nodes[n.id := n];
      return true;
    }

    method DeleteNode(id: string) returns (ok: bool)
      modifies this`nodes, this`mutes, this`lastSent
      ensures ok == (id in old(nodes))
      ensures nodes == old(nodes) - {id}
      ensures mutes == if ok then WithoutId(old(mutes), id) else old(mutes)
      ensures lastSent == if ok then WithoutId(old(lastSent), id) else old(lastSent)
    {
      if id !in nodes {
        return false;
      }
      nodes := nodes - {id};
      var doomed := mutes.Keys;
      while doomed != {}
        invariant doomed <= old(mutes).Keys && nodes == old(nodes) - {id} && lastSent == old(lastSent)
        invariant mutes == map k | k in old(mutes) && (k in doomed || !UnderId(k, id)) :: old(mutes)[k]
      {
        var k :| k in doomed;
        if UnderId(k, id) {
          mutes := mutes - {k};
        }
        doomed := doomed - {k};
      }
      doomed := lastSent.Keys;
      while doomed != {}
        invariant doomed <= old(lastSent).Keys && nodes == old(nodes) - {id} && mutes == WithoutId(old(mutes), id)
        invariant lastSent == map k | k in old(lastSent) && (k in doomed || !UnderId(k, id)) :: old(lastSent)[k]
      {
        var k :| k in doomed;
        if UnderId(k, id) {
          lastSent := lastSent - {k};
        }
        doomed := doomed - {k};
      }
      return true;
    }

    /** The nodes not yet flagged and last seen before `before`, each once. */
    method SilentCandidates(before: Time) returns (out: seq<Node>)
      requires forall id | id in nodes :: nodes[id].id == id
      ensures Candidates(nodes, before, out)
    {
      out := [];
      var todo := nodes.Keys;
      while todo != {}
        invariant todo <= nodes.Keys
        invariant Candidates(map id | id in nodes && id !in todo :: nodes[id], before, out)
      {
        var id :| id in todo;
        if !nodes[id].silent && nodes[id].lastSeen < before {
          out := out + [nodes[id]];
        }
        todo := todo - {id};
      }
      assert nodes == map id | id in nodes && id !in todo :: nodes[id];
    }

    method SetMute(id: string, alert: string, until: Time)
      modifies this`mutes
      ensures mutes == FlatOp(old(mutes), Put(id, alert, until))
    {
      mutes := mutes[Key(id, alert) := until];
    }

    method ClearMute(id: string, alert: string)
      modifies this`mutes
      ensures mutes == FlatOp(old(mutes), Clear(id, alert))
    {
      mutes := mutes - {Key(id, alert)};
    }

    method Muted(id: string, alert: string, now: Time) returns (muted: bool)
      ensures muted == MutedIn(mutes, id, alert, now)
    {
      var keys := [Key(id, alert), Key(id, "all")];
      for i := 0 to |keys|
        invariant forall j | 0 <= j < i :: !(keys[j] in mutes && mutes[keys[j]] > now)
      {
        if keys[i] in mutes && mutes[keys[i]] > now {
          return true;
        }
      }
      assert keys[0] == Key(id, alert) && keys[1] == Key(id, "all");
      return false;
    }

    method LastSent(id: string, alert: string) returns (rec: Option<SentRec>)
      ensures rec == Find(lastSent, Key(id, alert))
    {
      rec := if Key(id, alert) in lastSent then Some(lastSent[Key(id, alert)]) else None;
    }

    method SetLastSent(id: string, alert: string, state: State, at: Time)
      modifies this`lastSent
      ensures lastSent == FlatOp(old(lastSent), Put(id, alert, SentRec(state, at)))
    {
      lastSent := lastSent[Key(id, alert) := SentRec(state, at)];
    }
  }
}
