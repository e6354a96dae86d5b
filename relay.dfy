/**
 * The bookkeeping core of the relay (class Trance): the tracked descriptor set
 * `_master`, the running maximum `_maxfd`, the pairing map `_fd_map`, the
 * upstream marker map `_client_fd_map`, the ready set `_cur` of the last poll and
 * the transfer buffer `_buf`.  The system calls are replaced by their results:
 * an Event carries what ::accept, Client::connect, ::recv and the successive
 * ::send calls report for one ready descriptor.
 */
module Relay {
  import opened Outcomes
  import Trace
  import Transfer

  /** `char _buf[1025]`: ::recv is asked for at most one byte less, so the data is always NUL-terminated. */
  const BufferSize: int := 1025
  const Capacity: int := BufferSize - 1

  /** What one ::recv call reports: -1, or the bytes it stored (none for an orderly close). */
  datatype Received = RecvError | RecvBytes(data: seq<char>)

  /** The integer ::recv returns. */
  function RecvResult(got: Received): (n: int)
  {
    if got.RecvError? then -1 else |got.data|
  }

  /** ::recv stores at most the length it was asked for, `sizeof(_buf) - 1`. */
  predicate RecvFits(got: Received)
  {
    got.RecvBytes? ==> |got.data| <= Capacity
  }

  /** Server::accept: the descriptor ::accept returned, or 0 when it failed with -1. */
  function AcceptedFd(raw: int): (fd: int)
  {
    if raw == -1 then 0 else raw
  }

  /** std::map<int,int>::operator[]: the value at k, after inserting k with value 0 if k was missing. */
  function Subscript(m: map<int, int>, k: int): (r: (int, map<int, int>))
    ensures k in r.1 && r.1[k] == r.0
    ensures r.1.Keys == m.Keys + {k}
    ensures forall j :: j in m ==> r.1[j] == m[j]
    ensures k !in m ==> r.0 == 0
  {
    if k in m then (m[k], m) else (0, m[k := 0])
  }

  /** The results of the calls made while dispatching one ready descriptor. */
  datatype Event = Event(acceptRaw: int, connected: Option<int>, got: Received, sendCalls: seq<int>)

  /**
   * Results the system calls can report: ::accept gives -1 or a descriptor,
   * a successful connect gives a descriptor, ::recv respects its length and every
   * ::send call respects the length it is offered.
   */
  predicate WellFormed(e: Event)
  {
    && (e.acceptRaw == -1 || e.acceptRaw >= 0)
    && (e.connected.Some? ==> e.connected.value >= 0)
    && RecvFits(e.got)
    && (RecvResult(e.got) > 0 ==> Transfer.Plausible(RecvResult(e.got), 0, e.sendCalls))
  }

  /**
   * The descriptors a listener event registers are new: neither is tracked
   * in `master` and they differ (what ::accept and ::socket guarantee for
   * successful calls; a failed accept's 0 need not satisfy it).
   */
  predicate FreshFor(master: set<int>, e: Event)
  {
    e.connected.Some? ==>
      && AcceptedFd(e.acceptRaw) !in master && e.connected.value !in master
      && AcceptedFd(e.acceptRaw) != e.connected.value
  }

  /**
   * What a pass over the ready set `cur` keeps, `start` being the descriptors
   * tracked when the pass began: the pairs are symmetric; a ready descriptor
   * that is no longer tracked has an untracked partner; and every ready
   * descriptor other than the listener still has its partner from the start.
   */
  ghost predicate ScanHealthy(cur: set<int>, start: set<int>, master: set<int>, fdMap: map<int, int>, listener: int)
  {
    && Symmetric(master, fdMap, listener)
    && (forall y :: y in cur && y !in master ==> y in fdMap && fdMap[y] !in master)
    && (forall y :: y in cur && y != listener ==> y in fdMap && fdMap[y] in start)
  }

  /** A pass starts healthy when the pairs are symmetric and the poll reported only tracked descriptors. */
  lemma ScanStart(cur: set<int>, master: set<int>, fdMap: map<int, int>, listener: int)
    requires Symmetric(master, fdMap, listener) && cur <= master
    ensures ScanHealthy(cur, master, master, fdMap, listener)
  {
  }

  /**
   * Dispatching data on a ready descriptor keeps the pass healthy whether the
   * read tears the pair down or not, also when the descriptor was already torn
   * down as the partner of one dispatched earlier in the pass.
   */
  lemma ScanTeardown(cur: set<int>, start: set<int>, master: set<int>, fdMap: map<int, int>, listener: int, i: int)
    requires ScanHealthy(cur, start, master, fdMap, listener) && i in cur && i != listener
    ensures Subscript(fdMap, i).1 == fdMap
    ensures ScanHealthy(cur, start, master, fdMap, listener)
    ensures ScanHealthy(cur, start, master - {i, fdMap[i]}, fdMap, listener)
  {
    var after := master - {i, fdMap[i]};
    if i in master {
      TeardownKeepsPairs(master, fdMap, listener, i);
      forall y | y in cur && y !in after
        ensures fdMap[y] !in after
      {
        if y in master {
          assert y == i || y == fdMap[i];
        }
      }
    } else {
      assert after == master;
    }
  }

  /** Registering a pair of descriptors unknown when the pass began keeps the pass healthy. */
  lemma ScanPairing(cur: set<int>, start: set<int>, master: set<int>, fdMap: map<int, int>, listener: int, fd: int, c: int)
    requires ScanHealthy(cur, start, master, fdMap, listener)
    requires cur <= start && master <= start
    requires fd !in start && c !in start && fd != c
    ensures ScanHealthy(cur, start, master + {fd, c}, fdMap[fd := c][c := fd], listener)
  {
    PairingKeepsPairs(master, fdMap, listener, fd, c);
    var m := fdMap[fd := c][c := fd];
    forall y | y in cur && y != listener
      ensures m[y] == fdMap[y]
    {
      assert y != fd && y != c;
    }
  }

  /** What dispatching one ready descriptor did. */
  datatype Step =
    | Accepted(downstream: int, upstream: int)   // listener: a new pair was registered
    | ConnectThrew                               // listener: Client::connect threw out of process()
    | Relayed(received: int, to: int, outcome: Transfer.SendOutcome, wire: seq<char>, trace: string)
                                                 // data: read, sent to `to`, traced

  /**
   * The step that dispatching descriptor i records for the call results e:
   * on the listener, the accepted pair or the thrown connect; on any other
   * descriptor, the count read and what the partial-write loop made of it.
   */
  predicate Answers(listener: int, i: int, e: Event, step: Step)
  {
    if i == listener then
      step == (if e.connected.None? then ConnectThrew
               else Accepted(AcceptedFd(e.acceptRaw), e.connected.value))
    else
      var n := RecvResult(e.got);
      && step.Relayed?
      && step.received == (if n > 0 then n else 0)
      && (n > 0 ==> Transfer.Plausible(n, 0, e.sendCalls)
                    && (step.outcome, step.wire) == Transfer.SendRun(e.got.data, e.sendCalls))
      && (n <= 0 ==> step.outcome == Transfer.NoReturnValue && step.wire == [])
  }

  /**
   * receive's failure branch on the tracked set and the pairing map: fd and
   * `_fd_map[fd]` stop being tracked, and `_fd_map[fd]` is inserted as 0 if it
   * was missing.
   */
  function Teardown(master: set<int>, fdMap: map<int, int>, fd: int): (r: (set<int>, map<int, int>))
  {
    var partner := Subscript(fdMap, fd);
    (master - {fd, partner.0}, partner.1)
  }

  /** The fields a dispatch reads and writes, as one value: `_master`, `_maxfd`, `_fd_map`, `_client_fd_map` and `_buf`. */
  datatype Books = Books(master: set<int>, maxFd: int, fdMap: map<int, int>, clientFdMap: map<int, int>, buf: seq<char>)

  /** `_maxfd` after add_fd(fd): the larger of the two. */
  function Widen(top: int, fd: int): (r: int)
    ensures r >= top && r >= fd && (r == top || r == fd)
  {
    if fd > top then fd else top
  }

  /**
   * One dispatch of process on values: the bookkeeping left and the step
   * logged when ready descriptor i is dispatched with the call results e.
   * The listener registers the pair (or the connect throws and nothing
   * changes); any other descriptor is read into `_buf` (or its pair torn
   * down), sent to `_fd_map[i]`, traced by `_client_fd_map[i]`, and `_buf[0]`
   * is reset.
   */
  function Dispatched(b: Books, listener: int, color: bool, i: int, e: Event): (r: (Books, Step))
    requires |b.buf| == BufferSize && WellFormed(e)
    ensures |r.0.buf| == BufferSize
    ensures r.1 == ConnectThrew <==> i == listener && e.connected.None?
    ensures r.1 == ConnectThrew ==> r.0 == b
  {
    if i == listener then
      if e.connected.None? then (b, ConnectThrew)
      else
        var fd, c := AcceptedFd(e.acceptRaw), e.connected.value;
        (b.(master := b.master + {fd, c}, maxFd := Widen(Widen(b.maxFd, fd), c),
            fdMap := b.fdMap[fd := c][c := fd], clientFdMap := b.clientFdMap[c := 1]),
         Accepted(fd, c))
    else
      var n := RecvResult(e.got);
      var partner := Subscript(b.fdMap, i);
      var tag := Subscript(b.clientFdMap, i);
      var shown := if n > 0 then e.got.data else b.buf;
      var trace := if tag.0 == 1 then Trace.TraceClient(color, shown) else Trace.TraceServer(color, shown);
      if n <= 0 then
        var torn := Teardown(b.master, b.fdMap, i);
        (b.(master := torn.0, fdMap := torn.1, clientFdMap := tag.1, buf := b.buf[0 := Trace.NUL]),
         Relayed(0, partner.0, Transfer.NoReturnValue, [], trace))
      else
        var sent := Transfer.SendRun(e.got.data, e.sendCalls);
        (b.(fdMap := partner.1, clientFdMap := tag.1,
            buf := (e.got.data + [Trace.NUL] + b.buf[n + 1..])[0 := Trace.NUL]),
         Relayed(n, partner.0, sent.0, sent.1, trace))
  }

  /** Whatever the bookkeeping, a dispatch logs the step its call results call for. */
  lemma DispatchedAnswers(b: Books, listener: int, color: bool, i: int, e: Event)
    requires |b.buf| == BufferSize && WellFormed(e)
    ensures Answers(listener, i, e, Dispatched(b, listener, color, i, e).1)
  {
  }

  /**
   * One pass of process's loop on values: dispatching the descriptors `ids`
   * in order, starting from `b`, gives the bookkeeping left and the log.
   */
  function Replay(b: Books, listener: int, color: bool, events: map<int, Event>, ids: seq<int>): (r: (Books, seq<(int, Step)>))
    requires |b.buf| == BufferSize
    requires forall x :: x in ids ==> x in events && WellFormed(events[x])
    ensures |r.0.buf| == BufferSize && |r.1| == |ids|
    decreases |ids|
  {
    if ids == [] then (b, [])
    else
      var last := ids[|ids| - 1];
      var before := Replay(b, listener, color, events, ids[..|ids| - 1]);
      var next := Dispatched(before.0, listener, color, last, events[last]);
      (next.0, before.1 + [(last, next.1)])
  }

  /** Every entry a replay logs is the step its descriptor's call results call for. */
  lemma {:induction false} ReplayAnswers(b: Books, listener: int, color: bool, events: map<int, Event>, ids: seq<int>)
    requires |b.buf| == BufferSize
    requires forall x :: x in ids ==> x in events && WellFormed(events[x])
    ensures Answered(Replay(b, listener, color, events, ids).1, events, listener)
  {
    if ids != [] {
      var last := ids[|ids| - 1];
      var before := Replay(b, listener, color, events, ids[..|ids| - 1]);
      ReplayAnswers(b, listener, color, events, ids[..|ids| - 1]);
      DispatchedAnswers(before.0, listener, color, last, events[last]);
    }
  }

  /**
   * `states` are the bookkeeping before the first entry of `log` and after
   * each one: every entry is the dispatch of its descriptor, with its call
   * results, from the bookkeeping the previous entry left.
   */
  ghost predicate Chained(states: seq<Books>, log: seq<(int, Step)>, listener: int, color: bool, events: map<int, Event>)
  {
    && |states| == |log| + 1
    && (forall k :: 0 <= k < |states| ==> |states[k].buf| == BufferSize)
    && (forall k :: 0 <= k < |log| ==> log[k].0 in events && WellFormed(events[log[k].0]))
    && (forall k :: 0 <= k < |log| ==>
          (states[k + 1], log[k].1) == Dispatched(states[k], listener, color, log[k].0, events[log[k].0]))
  }

  /** A chain grows by one dispatch from its last bookkeeping. */
  lemma ChainedExtend(states: seq<Books>, log: seq<(int, Step)>, listener: int, color: bool, events: map<int, Event>,
                      i: int, next: Books, step: Step)
    requires Chained(states, log, listener, color, events)
    requires i in events && WellFormed(events[i])
    requires (next, step) == Dispatched(states[|log|], listener, color, i, events[i])
    ensures Chained(states + [next], log + [(i, step)], listener, color, events)
  {
    var s', l' := states + [next], log + [(i, step)];
    assert forall k :: 0 <= k < |states| ==> s'[k] == states[k];
    assert forall k :: 0 <= k < |log| ==> l'[k] == log[k];
  }

  /** The descriptors a chain dispatches all have well-formed call results. */
  lemma ChainedEvents(states: seq<Books>, log: seq<(int, Step)>, listener: int, color: bool, events: map<int, Event>)
    requires Chained(states, log, listener, color, events)
    ensures forall x :: x in Visited(log) ==> x in events && WellFormed(events[x])
  {
    var ids := Visited(log);
    forall x | x in ids
      ensures x in events && WellFormed(events[x])
    {
      var k :| 0 <= k < |ids| && ids[k] == x;
    }
  }

  /** Dropping the last entry of a chain leaves a chain. */
  lemma ChainedPrefix(states: seq<Books>, log: seq<(int, Step)>, listener: int, color: bool, events: map<int, Event>)
    requires Chained(states, log, listener, color, events) && log != []
    ensures Chained(states[..|log|], log[..|log| - 1], listener, color, events)
  {
    var n := |log| - 1;
    assert forall k :: 0 <= k < n + 1 ==> states[..n + 1][k] == states[k];
    assert forall k :: 0 <= k < n ==> log[..n][k] == log[k];
  }

  /** A non-empty log is its prefix followed by its last entry. */
  lemma LastSplit(log: seq<(int, Step)>)
    requires log != []
    ensures log == log[..|log| - 1] + [(log[|log| - 1].0, log[|log| - 1].1)]
  {
  }

  /** The descriptors of a log without its last entry. */
  lemma VisitedPrefix(log: seq<(int, Step)>)
    requires log != []
    ensures Visited(log[..|log| - 1]) == Visited(log)[..|log| - 1]
  {
  }

  /** A non-empty replay is the replay of all but the last descriptor followed by its dispatch. */
  lemma ReplayLast(b: Books, listener: int, color: bool, events: map<int, Event>, ids: seq<int>)
    requires |b.buf| == BufferSize
    requires forall x :: x in ids ==> x in events && WellFormed(events[x])
    requires ids != []
    ensures var n := |ids| - 1;
            var before := Replay(b, listener, color, events, ids[..n]);
            var next := Dispatched(before.0, listener, color, ids[n], events[ids[n]]);
            Replay(b, listener, color, events, ids) == (next.0, before.1 + [(ids[n], next.1)])
  {
  }

  /** A chain is the replay of its descriptors from its first bookkeeping: the pass is determined by its start. */
  lemma {:induction false} ChainedIsReplay(states: seq<Books>, log: seq<(int, Step)>, listener: int, color: bool,
                                           events: map<int, Event>)
    requires Chained(states, log, listener, color, events)
    ensures forall x :: x in Visited(log) ==> x in events && WellFormed(events[x])
    ensures (states[|log|], log) == Replay(states[0], listener, color, events, Visited(log))
    decreases |log|
  {
    ChainedEvents(states, log, listener, color, events);
    if log != [] {
      var n := |log| - 1;
      ChainedPrefix(states, log, listener, color, events);
      ChainedIsReplay(states[..n + 1], log[..n], listener, color, events);
      VisitedPrefix(log);
      ReplayLast(states[0], listener, color, events, Visited(log));
      LastSplit(log);
    }
  }

  /** Every entry of a chain is the step its descriptor's call results call for. */
  lemma ChainedAnswers(states: seq<Books>, log: seq<(int, Step)>, listener: int, color: bool, events: map<int, Event>)
    requires Chained(states, log, listener, color, events)
    ensures Answered(log, events, listener)
  {
    ChainedIsReplay(states, log, listener, color, events);
    ReplayAnswers(states[0], listener, color, events, Visited(log));
  }

  /** The descriptors of a log, in order. */
  function Visited(log: seq<(int, Step)>): (ids: seq<int>)
    ensures |ids| == |log| && forall k :: 0 <= k < |log| ==> ids[k] == log[k].0
  {
    seq(|log|, k requires 0 <= k < |log| => log[k].0)
  }

  /** `_buf` after a failed read and the `_buf[0] = 0` that ends the dispatch. */
  lemma ResetOnly(now: seq<char>, before: seq<char>)
    requires |now| == |before| > 0 && now[0] == Trace.NUL && now[1..] == before[1..]
    ensures now == before[0 := Trace.NUL]
  {
    assert forall k :: 1 <= k < |now| ==> now[k] == now[1..][k - 1];
  }

  /** `_buf` after a read of `data`, its NUL, and the `_buf[0] = 0` that ends the dispatch. */
  lemma StoredThenReset(now: seq<char>, before: seq<char>, data: seq<char>)
    requires |now| == |before| && 0 < |data| < |before|
    requires now[0] == Trace.NUL && now[1..|data|] == data[1..] && now[|data|] == Trace.NUL
    requires now[|data| + 1..] == before[|data| + 1..]
    ensures now == (data + [Trace.NUL] + before[|data| + 1..])[0 := Trace.NUL]
  {
    var n := |data|;
    var want := (data + [Trace.NUL] + before[n + 1..])[0 := Trace.NUL];
    forall k | 0 <= k < |now|
      ensures now[k] == want[k]
    {
      if 1 <= k < n {
        assert now[k] == now[1..n][k - 1];
      } else if n < k {
        assert now[k] == now[n + 1..][k - n - 1];
      }
    }
  }

  /**
   * The pairing the relay relies on: the listener is tracked, and every other
   * tracked descriptor has a tracked partner, neither the listener nor itself,
   * that points back.
   */
  ghost predicate Symmetric(master: set<int>, fdMap: map<int, int>, listener: int)
  {
    && listener in master
    && forall x :: x in master && x != listener ==>
         && x in fdMap
         && fdMap[x] in master && fdMap[x] != listener && fdMap[x] != x && fdMap[x] in fdMap
         && fdMap[fdMap[x]] == x
  }

  /**
   * Tearing down a tracked descriptor's pair (as receive does) removes it and
   * its partner together and leaves every other pair whole.
   */
  lemma TeardownKeepsPairs(master: set<int>, fdMap: map<int, int>, listener: int, fd: int)
    requires Symmetric(master, fdMap, listener) && fd in master && fd != listener
    ensures fdMap[fdMap[fd]] == fd
    ensures Symmetric(master - {fd, fdMap[fd]}, fdMap, listener)
  {
    var partner := fdMap[fd];
    var rest := master - {fd, partner};
    forall x | x in rest && x != listener
      ensures fdMap[x] in rest
    {
      assert fdMap[x] in master;
      assert fdMap[x] != fd && fdMap[x] != partner;
    }
  }

  /**
   * A second failing receive on the same descriptor changes neither the
   * tracked set nor the pairing map: the first one already inserted its entry.
   */
  lemma TeardownIdempotent(master: set<int>, fdMap: map<int, int>, fd: int)
    ensures var once := Teardown(master, fdMap, fd);
            Teardown(once.0, once.1, fd) == once
  {
    var once := Teardown(master, fdMap, fd);
    var p := Subscript(fdMap, fd).0;
    assert Subscript(once.1, fd) == (p, once.1);
    assert once.0 - {fd, p} == once.0;
  }

  /**
   * After a tracked pair is torn down from one side, a failing receive on the
   * partner changes neither the tracked set nor the pairing map.
   */
  lemma TeardownFromPartner(master: set<int>, fdMap: map<int, int>, listener: int, fd: int)
    requires Symmetric(master, fdMap, listener) && fd in master && fd != listener
    ensures var once := Teardown(master, fdMap, fd);
            Teardown(once.0, once.1, fdMap[fd]) == once
  {
    var once := Teardown(master, fdMap, fd);
    var partner := fdMap[fd];
    assert once.1 == fdMap;
    assert Subscript(fdMap, partner) == (fd, fdMap);
    assert once.0 - {partner, fd} == once.0;
  }

  /**
   * Registering two fresh descriptors as partners (the listener branch of
   * process) keeps every existing pair and adds the new one.
   */
  lemma PairingKeepsPairs(master: set<int>, fdMap: map<int, int>, listener: int, fd: int, c: int)
    requires Symmetric(master, fdMap, listener)
    requires fd !in master && c !in master && fd != c
    ensures Symmetric(master + {fd, c}, fdMap[fd := c][c := fd], listener)
  {
    var m := fdMap[fd := c][c := fd];
    forall x | x in master && x != listener
      ensures m[x] == fdMap[x] && m[m[x]] == x
    {
      assert x != fd && x != c;
      assert fdMap[x] in master;
    }
  }

  /**
   * The log of a pass that has looked at every descriptor below `i`: one entry
   * per ready descriptor below `i`, in increasing order, none a thrown connect.
   */
  ghost predicate Scanned(log: seq<(int, Step)>, cur: set<int>, i: int, events: map<int, Event>, listener: int)
  {
    && (forall k :: 0 <= k < |log| ==> 0 <= log[k].0 < i && log[k].0 in cur && log[k].1 != ConnectThrew)
    && (forall j, k :: 0 <= j < k < |log| ==> log[j].0 < log[k].0)
    && (forall x :: x in cur && 0 <= x < i ==> exists k :: 0 <= k < |log| && log[k].0 == x)
  }

  /** Every entry of the log is the step its descriptor's call results call for. */
  ghost predicate Answered(log: seq<(int, Step)>, events: map<int, Event>, listener: int)
  {
    forall k :: 0 <= k < |log| ==> log[k].0 in events && Answers(listener, log[k].0, events[log[k].0], log[k].1)
  }

  /**
   * The log of a pass that a thrown connect on the listener ended: ordered,
   * inside the ready set, covering every ready descriptor below the listener,
   * and with the thrown connect as its last entry only.
   */
  ghost predicate Halted(log: seq<(int, Step)>, cur: set<int>, listener: int)
  {
    && |log| > 0 && log[|log| - 1] == (listener, ConnectThrew)
    && (forall k :: 0 <= k < |log| ==> log[k].0 in cur)
    && (forall j, k :: 0 <= j < k < |log| ==> log[j].0 < log[k].0)
    && (forall k :: 0 <= k < |log| - 1 ==> log[k].1 != ConnectThrew)
    && (forall x :: x in cur && 0 <= x < listener ==> exists k :: 0 <= k < |log| && log[k].0 == x)
  }

  /** What a finished pass's log looks like, whether or not a connect threw. */
  lemma PassShape(log: seq<(int, Step)>, cur: set<int>, next: int, events: map<int, Event>, listener: int, thrown: bool)
    requires thrown ==> Halted(log, cur, listener)
    requires !thrown ==> Scanned(log, cur, next, events, listener) && forall x :: x in cur ==> 0 <= x < next
    ensures forall k :: 0 <= k < |log| ==> log[k].0 in cur
    ensures forall j, k :: 0 <= j < k < |log| ==> log[j].0 < log[k].0
    ensures forall k :: 0 <= k < |log| - 1 ==> log[k].1 != ConnectThrew
    ensures thrown <==> |log| > 0 && log[|log| - 1].1 == ConnectThrew
    ensures thrown ==> log[|log| - 1].0 == listener
    ensures !thrown ==> forall x :: x in cur ==> exists k :: 0 <= k < |log| && log[k].0 == x
    ensures thrown ==> forall x :: x in cur && 0 <= x < listener ==> exists k :: 0 <= k < |log| && log[k].0 == x
  {
    if !thrown {
      forall x | x in cur
        ensures exists k :: 0 <= k < |log| && log[k].0 == x
      {
        assert x in cur && 0 <= x < next;
      }
    }
  }

  /** Looking at a descriptor that is not ready adds nothing to the log. */
  lemma ScannedSkip(log: seq<(int, Step)>, cur: set<int>, i: int, events: map<int, Event>, listener: int)
    requires Scanned(log, cur, i, events, listener) && i !in cur && 0 <= i
    ensures Scanned(log, cur, i + 1, events, listener)
  {
  }

  /**
   * Dispatching ready descriptor `i` appends its entry: the log stays ordered
   * and in `cur`, and covers `i` as well unless the entry is a thrown connect.
   */
  lemma ScannedExtend(log: seq<(int, Step)>, cur: set<int>, i: int, events: map<int, Event>, listener: int, step: Step)
    requires Scanned(log, cur, i, events, listener) && i in cur && 0 <= i
    requires i in events
    ensures var next := log + [(i, step)];
            && (forall k :: 0 <= k < |next| ==> next[k].0 in cur)
            && (forall j, k :: 0 <= j < k < |next| ==> next[j].0 < next[k].0)
            && (forall k :: 0 <= k < |next| - 1 ==> next[k].1 != ConnectThrew)
            && next[|next| - 1] == (i, step)
            && (forall x :: x in cur && 0 <= x < i ==> exists k :: 0 <= k < |next| && next[k].0 == x)
            && (step != ConnectThrew ==> Scanned(next, cur, i + 1, events, listener))
  {
    var next := log + [(i, step)];
    assert forall k :: 0 <= k < |log| ==> next[k] == log[k];
    forall x | x in cur && 0 <= x < i
      ensures exists k :: 0 <= k < |next| && next[k].0 == x
    {
      var k :| 0 <= k < |log| && log[k].0 == x;
      assert next[k].0 == x;
    }
    if step != ConnectThrew {
      forall x | x in cur && 0 <= x < i + 1
        ensures exists k :: 0 <= k < |next| && next[k].0 == x
      {
        if x == i {
          assert next[|log|].0 == x;
        } else {
          var k :| 0 <= k < |log| && log[k].0 == x;
          assert next[k].0 == x;
        }
      }
    }
  }

  class Trance {
    const listener: int
    const color: bool
    const buf: array<char>
    var master: set<int>
    var cur: set<int>
    var maxFd: int
    var fdMap: map<int, int>
    var clientFdMap: map<int, int>

    /** Descriptors are non-negative and `_maxfd` bounds every tracked and every ready one. */
    ghost predicate Valid()
      reads this
    {
      && buf.Length == BufferSize
      && 0 <= listener
      && (forall x :: x in master ==> 0 <= x <= maxFd)
      && (forall x :: x in cur ==> 0 <= x <= maxFd)
    }

    /** The pairing invariant of the live relay. */
    ghost predicate PairsSymmetric()
      reads this
    {
      Symmetric(master, fdMap, listener)
    }

    /**
     * Trance(port, remote_host, remote_port, color) once the listening socket
     * exists: only the listener is tracked.  `initial` is the buffer's
     * indeterminate initial contents.
     */
    constructor (listenerFd: int, color: bool, initial: seq<char>)
      requires listenerFd >= 0 && |initial| == BufferSize
      ensures Valid() && PairsSymmetric()
      ensures listener == listenerFd && this.color == color
      ensures master == {listenerFd} && maxFd == listenerFd && cur == {}
      ensures fdMap == map[] && clientFdMap == map[]
      ensures fresh(buf) && buf[..] == initial
    {
      listener := listenerFd;
      this.color := color;
      buf := new char[BufferSize](k => if 0 <= k < |initial| then initial[k] else Trace.NUL);
      master := {};
      cur := {};
      maxFd := 0;
      fdMap := map[];
      clientFdMap := map[];
      new;
      AddFd(listenerFd);
    }

    /** The fields a dispatch reads and writes, as a value. */
    function Snapshot(): (b: Books)
      reads this, buf
      ensures b.master == master && b.maxFd == maxFd && b.fdMap == fdMap
      ensures b.clientFdMap == clientFdMap && b.buf == buf[..]
    {
      Books(master, maxFd, fdMap, clientFdMap, buf[..])
    }

    /** Server::is_listener. */
    function IsListener(fd: int): (b: bool)
    {
      fd == listener
    }

    /** is_fd_set: the descriptor is tracked. */
    function IsFdSet(fd: int): (b: bool)
      reads this
    {
      fd in master
    }

    /** has_fd: the last poll reported the descriptor readable. */
    function HasFd(fd: int): (b: bool)
      reads this
    {
      fd in cur
    }

    /** max_fd. */
    function MaxFd(): (m: int)
      reads this
    {
      maxFd
    }

    /** add_fd: track fd; `_maxfd` grows to fd if fd is larger and never shrinks. */
    method AddFd(fd: int)
      requires Valid() && fd >= 0
      modifies this
      ensures Valid()
      ensures master == old(master) + {fd} && IsFdSet(fd)
      ensures maxFd == (if fd > old(maxFd) then fd else old(maxFd))
      ensures old(maxFd) <= maxFd && fd <= maxFd
      ensures cur == old(cur) && fdMap == old(fdMap) && clientFdMap == old(clientFdMap)
    {
      master := master + {fd};
      if fd > maxFd {
        maxFd := fd;
      }
    }

    /** remove_fd: stop tracking fd and nothing else. */
    method RemoveFd(fd: int)
      requires Valid()
      modifies this
      ensures Valid()
      ensures master == old(master) - {fd} && !IsFdSet(fd)
      ensures maxFd == old(maxFd) && cur == old(cur)
      ensures fdMap == old(fdMap) && clientFdMap == old(clientFdMap)
    {
      master := master - {fd};
    }

    /** poll: `_cur` becomes the tracked descriptors that select reports readable. */
    method Poll(readable: set<int>)
      requires Valid()
      modifies this
      ensures Valid()
      ensures cur == master * readable
      ensures master == old(master) && maxFd == old(maxFd)
      ensures fdMap == old(fdMap) && clientFdMap == old(clientFdMap)
    {
      cur := master * readable;
    }

    /**
     * receive: on an error or an orderly close both fd and `_fd_map[fd]` stop
     * being tracked (their `_fd_map` entries stay) and 0 is returned; otherwise
     * the bytes are in the buffer, NUL-terminated, and their count is returned.
     */
    method Receive(fd: int, got: Received) returns (nbytes: int)
      requires Valid() && RecvFits(got)
      modifies this, buf
      ensures Valid()
      ensures cur == old(cur) && maxFd == old(maxFd) && clientFdMap == old(clientFdMap)
      ensures RecvResult(got) <= 0 ==>
                && nbytes == 0
                && (master, fdMap) == Teardown(old(master), old(fdMap), fd)
                && buf[..] == old(buf[..])
      ensures RecvResult(got) > 0 ==>
                && nbytes == RecvResult(got) && 1 <= nbytes <= Capacity
                && buf[..nbytes] == got.data && buf[nbytes] == Trace.NUL
                && buf[nbytes + 1..] == old(buf[nbytes + 1..])
                && master == old(master) && fdMap == old(fdMap)
      ensures fd in old(fdMap) ==> fdMap == old(fdMap)
      ensures old(PairsSymmetric()) && fd in old(master) && fd != listener ==> PairsSymmetric()
    {
      nbytes := RecvResult(got);
      if nbytes <= 0 {
        ghost var wasSymmetric := PairsSymmetric() && fd in master && fd != listener;
        if wasSymmetric {
          TeardownKeepsPairs(master, fdMap, listener, fd);
        }
        var partner := Subscript(fdMap, fd);
        fdMap := partner.1;
        RemoveFd(fd);
        RemoveFd(partner.0);
        assert master == old(master) - {fd, partner.0};
        return 0;
      }
      forall k | 0 <= k < nbytes {
        buf[k] := got.data[k];
      }
      buf[nbytes] := Trace.NUL;
    }

    /**
     * send: the partial-write loop over the results `calls` of the successive
     * ::send calls on fd, each offered `_buf` from offset `sent` to `size`.
     */
    method Send(fd: int, size: int, calls: seq<int>) returns (outcome: Transfer.SendOutcome, wire: seq<char>, to: int)
      requires Valid() && 0 <= size <= Capacity
      requires size > 0 ==> Transfer.Plausible(size, 0, calls)
      ensures (outcome, wire) == Transfer.SendRun(buf[..size], calls)
      ensures to == fd  // every ::send call of the loop is made on fd
    {
      to := fd;
      var payload := buf[..size];  // send only reads `_buf`
      ghost var goal := Transfer.SendRun(payload, calls);
      var sent := 0;
      var toSend := size;
      var pending := calls;
      wire := [];
      outcome := Transfer.NoReturnValue;
      if size > 0 {
        Transfer.OnTrackAtStart(payload, calls);
      }
      while toSend != 0
        invariant size > 0 ==> toSend == size - sent && Transfer.OnTrack(payload, goal, wire, sent, pending)
        invariant size == 0 ==> toSend == 0 && wire == []
        decreases |pending|
      {
        if pending == [] {
          Transfer.OnTrackExhausted(payload, goal, wire, sent);
          assert goal == (Transfer.StillSending, wire);
          outcome := Transfer.StillSending;
          break;
        }
        var offset := sent;
        sent := pending[0];
        Transfer.OnTrackStep(payload, goal, wire, offset, pending);
        pending := pending[1..];
        if sent == -1 {
          assert goal == (Transfer.SendFailed, wire);
          outcome := Transfer.SendFailed;
          break;
        }
        wire := wire + payload[offset .. offset + sent];
        if sent < size {
          toSend := size - sent;
        } else {
          outcome := Transfer.SendDone;
          break;
        }
      }
    }

    /**
     * The body of `if (has_fd(i))` in process: on the listener, accept and
     * connect and register the pair; on any other descriptor, receive, send to
     * `_fd_map[i]`, trace, and reset `_buf[0]`.
     */
    method Dispatch(i: int, e: Event) returns (step: Step)
      requires Valid() && WellFormed(e) && HasFd(i)
      modifies this, buf
      ensures Valid() && cur == old(cur)
      ensures IsListener(i) && e.connected.None? ==>
                step == ConnectThrew && unchanged(this) && unchanged(buf)
      ensures IsListener(i) && e.connected.Some? ==>
                var fd, c := AcceptedFd(e.acceptRaw), e.connected.value;
                && step == Accepted(fd, c)
                && fdMap == old(fdMap)[fd := c][c := fd]
                && clientFdMap == old(clientFdMap)[c := 1]
                && master == old(master) + {fd, c}
                && old(maxFd) <= maxFd && fd <= maxFd && c <= maxFd
                && maxFd == Widen(Widen(old(maxFd), fd), c)
                && unchanged(buf)
                && fdMap[fd] == c && fdMap[c] == fd && clientFdMap[c] == 1
      ensures IsListener(i) && old(PairsSymmetric()) && FreshFor(old(master), e) ==> PairsSymmetric()
      ensures !IsListener(i) ==>
                var n := RecvResult(e.got);
                var client := i in old(clientFdMap) && old(clientFdMap)[i] == 1;
                var shown := if n > 0 then e.got.data else old(buf[..]);
                && step.Relayed?
                && step.received == (if n > 0 then n else 0)
                && step.to == Subscript(old(fdMap), i).0
                && maxFd == old(maxFd)
                && fdMap == Subscript(old(fdMap), i).1
                && clientFdMap == Subscript(old(clientFdMap), i).1
                && step.trace == (if client then Trace.TraceClient(color, shown)
                                            else Trace.TraceServer(color, shown))
                && buf[0] == Trace.NUL
      ensures !IsListener(i) && RecvResult(e.got) <= 0 ==>
                && master == old(master) - {i, Subscript(old(fdMap), i).0}
                && step.outcome == Transfer.NoReturnValue && step.wire == []
                && buf[1..] == old(buf[1..])
      ensures !IsListener(i) && RecvResult(e.got) > 0 ==>
                var n := RecvResult(e.got);
                && master == old(master)
                && (step.outcome, step.wire) == Transfer.SendRun(e.got.data, e.sendCalls)
                && buf[1..n] == e.got.data[1..] && buf[n] == Trace.NUL
                && buf[n + 1..] == old(buf[n + 1..])
      ensures !IsListener(i) && old(PairsSymmetric()) && i in old(master) ==> PairsSymmetric()
      ensures (Snapshot(), step) == Dispatched(old(Snapshot()), listener, color, i, e)
    {
      if IsListener(i) {
        step := Accept(e);
      } else {
        step := Forward(i, e);
        if RecvResult(e.got) <= 0 {
          ResetOnly(buf[..], old(buf[..]));
        } else {
          StoredThenReset(buf[..], old(buf[..]), e.got.data);
        }
      }
    }

    /** The listener branch of process: accept, connect, and register the two descriptors as partners. */
    method Accept(e: Event) returns (step: Step)
      requires Valid() && WellFormed(e)
      modifies this
      ensures Valid() && cur == old(cur)
      ensures e.connected.None? ==> step == ConnectThrew && unchanged(this)
      ensures e.connected.Some? ==>
                var fd, c := AcceptedFd(e.acceptRaw), e.connected.value;
                && step == Accepted(fd, c)
                && fdMap == old(fdMap)[fd := c][c := fd]
                && clientFdMap == old(clientFdMap)[c := 1]
                && master == old(master) + {fd, c}
                && old(maxFd) <= maxFd && fd <= maxFd && c <= maxFd
                && maxFd == Widen(Widen(old(maxFd), fd), c)
                && fdMap[fd] == c && fdMap[c] == fd && clientFdMap[c] == 1
      ensures old(PairsSymmetric()) && FreshFor(old(master), e) ==> PairsSymmetric()
    {
      var fd := AcceptedFd(e.acceptRaw);
      if e.connected.None? {
        return ConnectThrew;
      }
      var c := e.connected.value;
      if PairsSymmetric() && fd !in master && c !in master && fd != c {
        PairingKeepsPairs(master, fdMap, listener, fd, c);
      }
      fdMap := fdMap[fd := c];
      clientFdMap := clientFdMap[c := 1];
      fdMap := fdMap[c := fd];
      AddFd(fd);
      AddFd(c);
      step := Accepted(fd, c);
    }

    /** The data branch of process: receive, send to the partner, trace, reset `_buf[0]`. */
    method Forward(i: int, e: Event) returns (step: Step)
      requires Valid() && WellFormed(e) && !IsListener(i)
      modifies this, buf
      ensures Valid() && cur == old(cur)
      ensures var n := RecvResult(e.got);
              var client := i in old(clientFdMap) && old(clientFdMap)[i] == 1;
              var shown := if n > 0 then e.got.data else old(buf[..]);
              && step.Relayed?
              && step.received == (if n > 0 then n else 0)
              && step.to == Subscript(old(fdMap), i).0
              && maxFd == old(maxFd)
              && fdMap == Subscript(old(fdMap), i).1
              && clientFdMap == Subscript(old(clientFdMap), i).1
              && step.trace == (if client then Trace.TraceClient(color, shown)
                                          else Trace.TraceServer(color, shown))
              && buf[0] == Trace.NUL
      ensures RecvResult(e.got) <= 0 ==>
                && master == old(master) - {i, Subscript(old(fdMap), i).0}
                && step.outcome == Transfer.NoReturnValue && step.wire == []
                && buf[1..] == old(buf[1..])
      ensures RecvResult(e.got) > 0 ==>
                var n := RecvResult(e.got);
                && master == old(master)
                && (step.outcome, step.wire) == Transfer.SendRun(e.got.data, e.sendCalls)
                && buf[1..n] == e.got.data[1..] && buf[n] == Trace.NUL
                && buf[n + 1..] == old(buf[n + 1..])
      ensures old(PairsSymmetric()) && i in old(master) ==> PairsSymmetric()
    {
      ghost var before := buf[..];
      var n := Receive(i, e.got);
      ghost var received := buf[..];
      var partner := Subscript(fdMap, i);
      fdMap := partner.1;
      var outcome, wire, to := Send(partner.0, n, e.sendCalls);
      var tag := Subscript(clientFdMap, i);
      clientFdMap := tag.1;
      var trace;
      if tag.0 == 1 {
        trace := Trace.TraceClient(color, buf[..]);
      } else {
        trace := Trace.TraceServer(color, buf[..]);
      }
      if n > 0 {
        assert received == e.got.data + [Trace.NUL] + received[n + 1..];
        Trace.CStringStopsAtNul(e.got.data, received[n + 1..]);
      }
      buf[0] := Trace.NUL;
      step := Relayed(n, to, outcome, wire, trace);
    }

    /**
     * Dispatch as one step of a pass that began with `start` tracked and with
     * the bookkeeping `books`, having dispatched `ids` so far.
     */
    method Visit(i: int, events: map<int, Event>, ghost start: set<int>, ghost healthy: bool,
                 ghost states: seq<Books>, ghost log: seq<(int, Step)>) returns (step: Step)
      requires i in events && Valid() && WellFormed(events[i]) && HasFd(i)
      requires Chained(states, log, listener, color, events) && states[|log|] == Snapshot()
      requires healthy ==> && ScanHealthy(cur, start, master, fdMap, listener) && cur <= start
                           && (i <= listener ==> master <= start)
                           && (i == listener ==> FreshFor(start, events[i]))
      modifies this, buf
      ensures Valid() && cur == old(cur) && old(maxFd) <= maxFd
      ensures i != listener ==> maxFd == old(maxFd)
      ensures step == ConnectThrew ==> i == listener
      ensures Chained(states + [Snapshot()], log + [(i, step)], listener, color, events)
      ensures healthy ==> && ScanHealthy(cur, start, master, fdMap, listener)
                          && (i < listener ==> master <= start)
    {
      ghost var tracked, pairs := master, fdMap;
      var e := events[i];
      step := Dispatch(i, e);
      ChainedExtend(states, log, listener, color, events, i, Snapshot(), step);
      if healthy {
        if i == listener {
          if e.connected.Some? {
            ScanPairing(cur, start, tracked, pairs, listener, AcceptedFd(e.acceptRaw), e.connected.value);
          }
        } else {
          ScanTeardown(cur, start, tracked, pairs, listener, i);
        }
      }
    }

    /** One iteration of process's `for` loop: descriptor i is dispatched if the poll reported it. */
    method Advance(i: int, events: map<int, Event>, ghost start: set<int>, ghost healthy: bool,
                   log: seq<(int, Step)>, ghost states: seq<Books>)
      returns (next: seq<(int, Step)>, ghost after: seq<Books>, thrown: bool)
      requires Valid() && 0 <= i
      requires forall x :: x in cur ==> x in events && WellFormed(events[x])
      requires Scanned(log, cur, i, events, listener)
      requires Chained(states, log, listener, color, events) && states[|log|] == Snapshot()
      requires healthy ==> && ScanHealthy(cur, start, master, fdMap, listener) && cur <= start
                           && (i <= listener ==> master <= start)
                           && (listener in cur ==> FreshFor(start, events[listener]))
      modifies this, buf
      ensures Valid() && cur == old(cur) && old(maxFd) <= maxFd
      ensures i != listener ==> maxFd == old(maxFd)
      ensures Chained(after, next, listener, color, events) && after[0] == states[0] && after[|next|] == Snapshot()
      ensures !thrown ==> Scanned(next, cur, i + 1, events, listener)
      ensures thrown ==> Halted(next, cur, listener)
      ensures healthy ==> && ScanHealthy(cur, start, master, fdMap, listener)
                          && (i < listener ==> master <= start)
    {
      next, after, thrown := log, states, false;
      if HasFd(i) {
        var step := Visit(i, events, start, healthy, states, log);
        ScannedExtend(log, cur, i, events, listener, step);
        next := log + [(i, step)];
        after := states + [Snapshot()];
        thrown := step == ConnectThrew;
      } else {
        ScannedSkip(log, cur, i, events, listener);
      }
    }

    /**
     * The loop of a pass, stated through the pass predicates: the log is
     * `Halted` when a connect threw and `Scanned` up to `next`, past every ready
     * descriptor, when none did; `states` chain the dispatches.
     */
    method Sweep(events: map<int, Event>) returns (log: seq<(int, Step)>, thrown: bool, ghost states: seq<Books>, ghost next: int)
      requires Valid()
      requires forall x :: x in cur ==> x in events && WellFormed(events[x])
      modifies this, buf
      ensures Valid() && cur == old(cur) && old(maxFd) <= maxFd
      ensures Chained(states, log, listener, color, events)
      ensures states[0] == old(Snapshot()) && states[|log|] == Snapshot()
      ensures thrown ==> Halted(log, cur, listener)
      ensures !thrown ==> Scanned(log, cur, next, events, listener) && forall x :: x in cur ==> 0 <= x < next
      ensures (&& old(PairsSymmetric()) && old(cur) <= old(master)
               && (listener in old(cur) ==> FreshFor(old(master), events[listener]))) ==> PairsSymmetric()
    {
      log := [];
      thrown := false;
      ghost var start := master;
      states := [Snapshot()];
      ghost var healthy := PairsSymmetric() && cur <= master &&
                           (listener in cur ==> FreshFor(master, events[listener]));
      if healthy {
        ScanStart(cur, master, fdMap, listener);
      }
      var i := 0;
      while i <= MaxFd()
        invariant Valid() && cur == old(cur) && old(maxFd) <= maxFd && 0 <= i
        invariant Scanned(log, cur, i, events, listener)
        invariant Chained(states, log, listener, color, events)
        invariant states[0] == old(Snapshot()) && states[|log|] == Snapshot()
        invariant healthy ==> ScanHealthy(cur, start, master, fdMap, listener)
        invariant healthy && i <= listener ==> master <= start
        decreases if i <= listener then 1 else 0, maxFd - i
      {
        log, states, thrown := Advance(i, events, start, healthy, log, states);
        if thrown {
          break;
        }
        i := i + 1;
      }
      next := i;
    }

    /**
     * One pass of process's `for (i = 0; i <= max_fd(); i++)` loop after a poll:
     * every descriptor the poll reported is dispatched once, in increasing
     * order, with the call results in `events`; a connect that throws ends the
     * pass, and with it process().  `states` are the bookkeeping before the
     * pass and after each entry, every entry being `Dispatched` from the one
     * before, so the log also answers its call results (`Answers`).
     */
    method Cycle(events: map<int, Event>) returns (log: seq<(int, Step)>, thrown: bool, ghost states: seq<Books>)
      requires Valid()
      requires forall x :: x in cur ==> x in events && WellFormed(events[x])
      modifies this, buf
      ensures Valid() && cur == old(cur) && old(maxFd) <= maxFd
      ensures forall k :: 0 <= k < |log| ==> log[k].0 in cur
      ensures Answered(log, events, listener)
      ensures Chained(states, log, listener, color, events)
      ensures states[0] == old(Snapshot()) && states[|log|] == Snapshot()
      ensures forall j, k :: 0 <= j < k < |log| ==> log[j].0 < log[k].0
      ensures forall k :: 0 <= k < |log| - 1 ==> log[k].1 != ConnectThrew
      ensures thrown <==> |log| > 0 && log[|log| - 1].1 == ConnectThrew
      ensures thrown ==> log[|log| - 1].0 == listener
      ensures !thrown ==> forall x :: x in cur ==> exists k :: 0 <= k < |log| && log[k].0 == x
      ensures thrown ==> forall x :: x in cur && 0 <= x < listener ==> exists k :: 0 <= k < |log| && log[k].0 == x
      ensures (&& old(PairsSymmetric()) && old(cur) <= old(master)
               && (listener in old(cur) ==> FreshFor(old(master), events[listener]))) ==> PairsSymmetric()
    {
      ghost var next;
      log, thrown, states, next := Sweep(events);
      PassShape(log, cur, next, events, listener, thrown);
      ChainedAnswers(states, log, listener, color, events);
    }
  }

  /**
   * Server::accept's failure value 0 is paired like a descriptor: after two
   * failed accepts in a row, the first upstream descriptor is still tracked and
   * still points at 0, while 0 now points at the second one.
   */
  method TwoFailedAccepts()
  {
    var t := new Trance(3, true, seq(BufferSize, _ => Trace.NUL));
    t.Poll({3});
    var first := t.Dispatch(3, Event(-1, Some(4), RecvError, []));
    assert first == Accepted(0, 4) && t.PairsSymmetric();
    t.Poll({3});
    var second := t.Dispatch(3, Event(-1, Some(5), RecvError, []));
    assert second == Accepted(0, 5);
    assert 4 in t.master && t.fdMap[4] == 0 && t.fdMap[0] == 5;
    assert !t.PairsSymmetric();
  }
}
