/** The world the registered run acts in: a clock that never runs back, a transport that may
    answer anything, and a record of every operation the run started. */
module RunClock {
  import opened Common

  datatype Identity = Identity(requested: string, name: string, digest: string)

  /** A chat response, as far as the run looks at it. */
  datatype Response = Response(done: bool, stopped: bool, model: string, content: Option<string>, promptTokens: int,
                               outputTokens: int)

  /** One transport operation: the clock reading its timeout was computed from, the interval of
      readings around it, and what came back. */
  datatype Op =
    | Resolve(reading: real, timeout: real, ended: real, observed: Option<Identity>)
    | Chat(started: real, reading: real, timeout: real, ended: real, response: Option<Response>)
  {
    ghost function From(): real {
      if Resolve? then reading else started
    }

    ghost function To(): real {
      ended
    }

    /** Time this operation contributes to the receipts. */
    ghost function Transport(): real {
      if Resolve? then 0.0 else ended - started
    }
  }

  const RESOLVE_CEILING := 30.0

  /** Started before the deadline, with no more time than was left. */
  ghost predicate InBudget(op: Op, deadline: real) {
    && op.reading < deadline && 0.0 < op.timeout <= deadline - op.reading
    && (op.Resolve? ==> op.timeout <= 30.0)
  }

  /** The operations follow one another between two readings, none overlapping the next. */
  ghost predicate Sequential(log: seq<Op>, from: real, upto: real) {
    if log == [] then from <= upto
    else
      var n := |log| - 1;
      log[n].To() <= upto && log[n].From() <= log[n].To() && Sequential(log[..n], from, log[n].From())
  }

  ghost function TransportTime(log: seq<Op>): real {
    if log == [] then 0.0 else TransportTime(log[..|log| - 1]) + log[|log| - 1].Transport()
  }

  lemma SequentialNext(log: seq<Op>, from: real, upto: real, op: Op, later: real)
    requires Sequential(log, from, upto) && upto <= op.From() <= op.To() <= later
    ensures Sequential(log + [op], from, later)
    ensures TransportTime(log + [op]) == TransportTime(log) + op.Transport()
  {
    assert (log + [op])[..|log|] == log;
  }

  /** Operations that do not overlap take no more time than passed. */
  lemma {:induction false} TransportFits(log: seq<Op>, from: real, upto: real)
    requires Sequential(log, from, upto)
    ensures TransportTime(log) <= upto - from
  {
    if log == [] {
    } else {
      TransportFits(log[..|log| - 1], from, log[|log| - 1].From());
    }
  }

  lemma {:induction false} EndsBefore(log: seq<Op>, from: real, upto: real, i: nat)
    requires Sequential(log, from, upto) && i < |log|
    ensures log[i].To() <= upto
  {
    var n := |log| - 1;
    if i < n {
      EndsBefore(log[..n], from, log[n].From(), i);
    }
  }

  /** No two chats overlap. */
  lemma {:induction false} ChatsDisjoint(log: seq<Op>, from: real, upto: real, i: nat, j: nat)
    requires Sequential(log, from, upto) && i < j < |log|
    ensures log[i].To() <= log[j].From()
  {
    var n := |log| - 1;
    if j < n {
      ChatsDisjoint(log[..n], from, log[n].From(), i, j);
    } else {
      EndsBefore(log[..n], from, log[n].From(), i);
    }
  }

  // ---- The order of operations ----

  /** A resolve that saw the identity. */
  ghost predicate Saw(op: Op, identity: Identity) {
    op.Resolve? && op.observed == Some(identity)
  }

  /** One operation more. */
  ghost predicate Appended(before: seq<Op>, after: seq<Op>) {
    |after| == |before| + 1 && after[..|before|] == before
  }

  /** One call more: a chat between two resolves that saw the identity. */
  ghost predicate CalledOnce(before: seq<Op>, after: seq<Op>, identity: Identity) {
    && |after| == |before| + 3 && after[..|before|] == before
    && Saw(after[|before|], identity) && after[|before| + 1].Chat? && Saw(after[|before| + 2], identity)
  }

  /** The place of an operation in a run: every third one is a chat, every other one a resolve
      that saw the identity. */
  ghost predicate InPlace(op: Op, i: nat, identity: Identity) {
    if i % 3 == 2 then op.Chat? else Saw(op, identity)
  }

  ghost predicate InTurn(log: seq<Op>, identity: Identity) {
    forall i: nat {:trigger InPlace(log[i], i, identity)} | i < |log| :: InPlace(log[i], i, identity)
  }

  /** A resolve and `calls` calls, in turn. */
  ghost predicate Followed(log: seq<Op>, calls: nat, identity: Identity) {
    |log| == 3 * calls + 1 && InTurn(log, identity)
  }

  lemma FollowedNext(before: seq<Op>, after: seq<Op>, calls: nat, identity: Identity)
    requires Followed(before, calls, identity) && CalledOnce(before, after, identity)
    ensures Followed(after, calls + 1, identity)
  {
    forall i: nat | i < |after| ensures InPlace(after[i], i, identity) {
      if i < |before| {
        assert after[i] == before[i] && InPlace(before[i], i, identity);
      }
    }
  }

  /** One reading is not after another. */
  ghost predicate Earlier(i: nat, j: nat) {
    i <= j
  }

  ghost predicate Nondecreasing(clock: nat -> real) {
    forall i: nat, j: nat {:trigger Earlier(i, j)} | Earlier(i, j) :: clock(i) <= clock(j)
  }

  class World {
    const clock: nat -> real
    const identities: nat -> Option<Identity>
    const responses: nat -> Option<Response>
    var readings: nat
    var resolves: nat
    var chats: nat
    ghost var log: seq<Op>

    constructor (clock: nat -> real, identities: nat -> Option<Identity>, responses: nat -> Option<Response>)
      ensures this.clock == clock && this.identities == identities && this.responses == responses
      ensures readings == 0 && resolves == 0 && chats == 0 && log == []
    {
      this.clock, this.identities, this.responses := clock, identities, responses;
      readings, resolves, chats, log := 0, 0, 0, [];
    }

    /** The last clock reading. */
    ghost function Last(): real
      requires readings > 0
      reads this
    {
      clock(readings - 1)
    }

    /** What holds of the run so far, whatever comes of it. */
    ghost predicate Kept(from: real, deadline: real)
      reads this
    {
      && Nondecreasing(clock) && readings > 0
      && Sequential(log, from, Last())
      && forall op | op in log :: InBudget(op, deadline)
    }

    /** Where the run stands: readings taken, resolves and chats made. */
    ghost predicate StandsAt(readings: nat, resolves: nat, chats: nat)
      reads this
    {
      this.readings == readings && this.resolves == resolves && this.chats == chats
    }

    /** `monotonic()`. */
    method Now() returns (t: real)
      modifies this`readings
      ensures readings == old(readings) + 1 && t == clock(old(readings)) == Last()
    {
      t := clock(readings);
      readings := readings + 1;
    }

    /** `transport.resolve_model`; it ends at the next clock reading. */
    method ResolveModel(timeout: real, ghost reading: real) returns (r: Option<Identity>)
      modifies this`resolves, this`log
      ensures r == identities(old(resolves)) && resolves == old(resolves) + 1
      ensures log == old(log) + [Resolve(reading, timeout, clock(readings), r)]
    {
      r := identities(resolves);
      resolves := resolves + 1;
      log := log + [Resolve(reading, timeout, clock(readings), r)];
    }

    /** `transport.chat`; it ends at the next clock reading. */
    method ChatOnce(timeout: real, ghost started: real, ghost reading: real) returns (r: Option<Response>)
      modifies this`chats, this`log
      ensures r == responses(old(chats)) && chats == old(chats) + 1
      ensures log == old(log) + [Chat(started, reading, timeout, clock(readings), r)]
    {
      r := responses(chats);
      chats := chats + 1;
      log := log + [Chat(started, reading, timeout, clock(readings), r)];
    }
  }
}
