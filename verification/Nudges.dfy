/** The nudge queue of a device room, and which host socket it trusts (edge/src/device-room.ts). */
module Nudges {
  import opened Common

  const NUDGE_MAX_PENDING: nat := 256

  const HOST_LIVENESS_MS: int := 75_000

  // ----- the queue -----

  /** Queued chats with the time of their latest nudge. */
  type Queue = map<string, int>

  predicate IdChar(c: char) {
    'a' <= c <= 'z' || 'A' <= c <= 'Z' || '0' <= c <= '9' || c == '_' || c == '-'
  }

  predicate ValidChatId(chat: string) { 1 <= |chat| <= 64 && forall c :: c in chat ==> IdChar(c) }

  function Newer(q: Queue, chat: string): set<string>
    requires chat in q
  {
    set d | d in q && q[d] > q[chat]
  }

  /** The n rows with the latest times. */
  function Newest(q: Queue, n: nat): Queue {
    map c | c in q && |Newer(q, c)| < n :: q[c]
  }

  datatype Action = Nudge(chat: string, at: int, live: bool) | Join

  predicate Queues(a: Action) { a.Nudge? && ValidChatId(a.chat) && !a.live }

  /** A join replays and clears the queue; a nudge with no live host upserts and truncates. */
  function Step(q: Queue, a: Action): Queue {
    if a.Join? then map[]
    else if Queues(a) then Newest(q[a.chat := a.at], NUDGE_MAX_PENDING)
    else q
  }

  function Runs(actions: seq<Action>): Queue {
    if actions == [] then map[] else Step(Runs(actions[..|actions| - 1]), actions[|actions| - 1])
  }

  // ----- the history it stands for -----

  /** The last time each chat was nudged since the last join, however many there were. */
  function LastNudges(actions: seq<Action>): Queue {
    if actions == [] then map[]
    else
      var a, before := actions[|actions| - 1], LastNudges(actions[..|actions| - 1]);
      if a.Join? then map[] else if Queues(a) then before[a.chat := a.at] else before
  }

  /** A nudge of the chat that found no live host and that no join has answered yet. */
  predicate Waits(actions: seq<Action>, i: int, chat: string) {
    && 0 <= i < |actions| && actions[i].Nudge? && actions[i].chat == chat && !actions[i].live
    && 1 <= |chat| <= 64 && (forall c :: c in chat ==> 'a' <= c <= 'z' || 'A' <= c <= 'Z' || '0' <= c <= '9' || c in "_-")
    && forall j :: i < j < |actions| ==> !actions[j].Join?
  }

  /** A chat counts as nudged exactly if such a nudge waits, and then since the last one. */
  lemma {:induction false} NudgedExactly(actions: seq<Action>, chat: string)
    ensures chat in LastNudges(actions) <==> exists i :: Waits(actions, i, chat)
    ensures chat in LastNudges(actions) ==>
      exists i :: Waits(actions, i, chat) && LastNudges(actions)[chat] == actions[i].at
        && forall j :: i < j < |actions| ==> !Waits(actions, j, chat)
  {
    if actions != [] {
      var n := |actions| - 1;
      var before, a := actions[..n], actions[n];
      NudgedExactly(before, chat);
      forall i | 0 <= i < n ensures Waits(actions, i, chat) <==> Waits(before, i, chat) && !a.Join? {
        assert before[i] == actions[i];
        if Waits(actions, i, chat) {
          forall j | i < j < n ensures !before[j].Join? { assert before[j] == actions[j]; }
        }
        if Waits(before, i, chat) && !a.Join? {
          forall j | i < j <= n ensures !actions[j].Join? { if j < n { assert before[j] == actions[j]; } }
        }
      }
      assert Waits(actions, n, chat) <==> Queues(a) && a.chat == chat;
    }
  }

  ghost predicate Increasing(actions: seq<Action>) {
    forall i, j :: 0 <= i < j < |actions| && Queues(actions[i]) && Queues(actions[j]) ==> actions[i].at < actions[j].at
  }

  /** All times so far are before that of a later nudge, and no two are equal. */
  lemma {:induction false} TimesAreEarlier(actions: seq<Action>, at: int)
    requires Increasing(actions) && forall i :: 0 <= i < |actions| && Queues(actions[i]) ==> actions[i].at < at
    ensures forall c :: c in LastNudges(actions) ==> LastNudges(actions)[c] < at
    ensures forall c, d :: c in LastNudges(actions) && d in LastNudges(actions) && c != d ==>
      LastNudges(actions)[c] != LastNudges(actions)[d]
  {
    if actions != [] {
      var before, a := actions[..|actions| - 1], actions[|actions| - 1];
      if Queues(a) { TimesAreEarlier(before, a.at); } else { TimesAreEarlier(before, at); }
      TimesAreEarlierThan(before, at);
    }
  }

  lemma {:induction false} TimesAreEarlierThan(actions: seq<Action>, at: int)
    requires forall i :: 0 <= i < |actions| && Queues(actions[i]) ==> actions[i].at < at
    ensures forall c :: c in LastNudges(actions) ==> LastNudges(actions)[c] < at
  {
    if actions != [] { TimesAreEarlierThan(actions[..|actions| - 1], at); }
  }

  lemma SubsetSize<T>(a: set<T>, b: set<T>)
    requires a <= b
    ensures |a| <= |b|
    ensures a != b ==> |a| < |b|
  {
    assert b == a + (b - a);
  }

  /** What is newer than a chat kept by a truncation is kept too. */
  lemma NewerAreKept(h: Queue, n: nat, c: string)
    requires c in h && |Newer(h, c)| < n
    ensures c in Newest(h, n) && Newer(Newest(h, n), c) == Newer(h, c)
  {
    forall d | d in Newer(h, c) ensures d in Newest(h, n) {
      SubsetSize(Newer(h, d), Newer(h, c));
    }
  }

  /** Truncating after every upsert is truncating once. */
  lemma UpsertThenTruncate(h: Queue, n: nat, chat: string, at: int)
    requires n > 0 && forall c :: c in h ==> h[c] < at
    ensures Newest(Newest(h, n)[chat := at], n) == Newest(h[chat := at], n)
  {
    var full, kept := h[chat := at], Newest(h, n)[chat := at];
    assert Newer(full, chat) == {} && Newer(kept, chat) == {};
    forall c | c in h && c != chat
      ensures c in Newest(kept, n) <==> c in Newest(full, n)
      ensures c in Newest(full, n) ==> Newest(kept, n)[c] == Newest(full, n)[c]
    {
      OtherRow(h, n, chat, at, c);
    }
  }

  lemma OtherRow(h: Queue, n: nat, chat: string, at: int, c: string)
    requires n > 0 && (forall c :: c in h ==> h[c] < at) && c in h && c != chat
    ensures var full, kept := h[chat := at], Newest(h, n)[chat := at];
      && (c in Newest(kept, n) <==> c in Newest(full, n))
      && (c in Newest(full, n) ==> Newest(kept, n)[c] == Newest(full, n)[c])
  {
    var full, kept := h[chat := at], Newest(h, n)[chat := at];
    assert Newer(full, c) == Newer(h, c) + {chat};
    if |Newer(h, c)| < n {
      NewerAreKept(h, n, c);
      assert Newer(kept, c) == Newer(Newest(h, n), c) + {chat};
    } else {
      SubsetSize(Newer(h, c), Newer(full, c));
    }
  }

  /** The queue is exactly the 256 most recently nudged chats since the last join. */
  lemma {:induction false} QueueIsRecentHistory(actions: seq<Action>)
    requires Increasing(actions)
    ensures Runs(actions) == Newest(LastNudges(actions), NUDGE_MAX_PENDING)
  {
    if actions != [] {
      var before, a := actions[..|actions| - 1], actions[|actions| - 1];
      QueueIsRecentHistory(before);
      if Queues(a) {
        TimesAreEarlier(before, a.at);
        UpsertThenTruncate(LastNudges(before), NUDGE_MAX_PENDING, a.chat, a.at);
      }
    }
  }

  /** A queued chat waits for the next join unless 256 other chats were nudged after it. */
  lemma NudgeWaitsForJoin(actions: seq<Action>, chat: string)
    requires Increasing(actions) && chat in LastNudges(actions)
    ensures chat in Runs(actions) <==> |Newer(LastNudges(actions), chat)| < NUDGE_MAX_PENDING
    ensures chat in Runs(actions) ==> Runs(actions)[chat] == LastNudges(actions)[chat]
  {
    QueueIsRecentHistory(actions);
  }

  // ----- truncation -----

  predicate NoTies(q: Queue) { forall c, d :: c in q && d in q && c != d ==> q[c] != q[d] }

  /** As many rows as allowed, and none of the others is newer than one that stayed. */
  ghost predicate Truncated(q: Queue, kept: Queue, n: nat) {
    && (forall c :: c in kept ==> c in q && kept[c] == q[c])
    && |kept| == (if |q| < n then |q| else n)
    && forall c, d :: c in kept && d in q && d !in kept ==> q[d] <= q[c]
  }

  function Rows(q: Queue, kept: set<string>): Queue { map c | c in q && c in kept :: q[c] }

  lemma KeptRows(q: Queue, kept: set<string>, rest: set<string>, n: nat)
    requires kept + rest == q.Keys && kept !! rest && |kept| <= n && (rest == {} || |kept| == n)
    requires forall c, d :: c in kept && d in rest ==> q[d] <= q[c]
    ensures Truncated(q, Rows(q, kept), n)
  {
    var r := Rows(q, kept);
    assert r.Keys == kept && |r| == |r.Keys|;
    assert |q| == |q.Keys| == |kept| + |rest|;
    forall c, d | c in r && d in q && d !in r ensures q[d] <= q[c] {
      assert d in rest;
    }
  }

  /** Without ties there is only one way to truncate. */
  lemma TruncatedIsNewest(q: Queue, kept: Queue, n: nat)
    requires Truncated(q, kept, n) && NoTies(q)
    ensures kept == Newest(q, n)
  {
    assert |kept| == |kept.Keys| && |q| == |q.Keys|;
    forall c | c in q ensures c in kept <==> |Newer(q, c)| < n {
      if c in kept {
        forall d | d in Newer(q, c) ensures d in kept.Keys - {c} {
        }
        SubsetSize(Newer(q, c), kept.Keys - {c});
      } else {
        SubsetSize(kept.Keys, q.Keys);
        forall d | d in kept.Keys ensures d in Newer(q, c) {
        }
        SubsetSize(kept.Keys, Newer(q, c));
      }
    }
  }

  /** While the clock advances between nudges the queue never holds a tie. */
  lemma UpsertsNeverTie(actions: seq<Action>, a: Action)
    requires Increasing(actions + [a]) && Queues(a)
    ensures NoTies(Runs(actions)[a.chat := a.at])
  {
    var all := actions + [a];
    forall i | 0 <= i < |actions| && Queues(actions[i]) ensures actions[i].at < a.at {
      assert all[i] == actions[i] && all[|actions|] == a;
    }
    forall i, j | 0 <= i < j < |actions| && Queues(actions[i]) && Queues(actions[j])
      ensures actions[i].at < actions[j].at
    {
      assert all[i] == actions[i] && all[j] == actions[j];
    }
    QueueIsRecentHistory(actions);
    TimesAreEarlier(actions, a.at);
  }

  /** What one action may do to the queue, whichever of equally old rows a truncation drops. */
  ghost predicate May(q: Queue, a: Action, next: Queue) {
    if a.Join? then next == map[]
    else if Queues(a) then Truncated(q[a.chat := a.at], next, NUDGE_MAX_PENDING)
    else next == q
  }

  /** The queue before, between and after some actions. */
  ghost predicate Lived(queues: seq<Queue>, actions: seq<Action>) {
    && |queues| == |actions| + 1 && queues[0] == map[]
    && forall i :: 0 <= i < |actions| ==> May(queues[i], actions[i], queues[i + 1])
  }

  /** The queue never holds more than 256 rows, whatever the clock does. */
  lemma {:induction false} QueueIsBounded(queues: seq<Queue>, actions: seq<Action>)
    requires Lived(queues, actions)
    ensures |queues[|actions|]| <= NUDGE_MAX_PENDING
  {
    if actions != [] {
      var n := |actions| - 1;
      QueueIsBounded(queues[..|actions|], actions[..n]);
      assert May(queues[n], actions[n], queues[n + 1]);
    }
  }

  lemma IncreasingFront(actions: seq<Action>, n: nat)
    requires Increasing(actions) && n <= |actions|
    ensures Increasing(actions[..n])
  {
    forall i, j | 0 <= i < j < n && Queues(actions[..n][i]) && Queues(actions[..n][j])
      ensures actions[..n][i].at < actions[..n][j].at
    {
      assert actions[..n][i] == actions[i] && actions[..n][j] == actions[j];
    }
  }

  /** While the clock advances there is only one life: the queue is the specified one throughout. */
  lemma {:induction false} LivesAreRuns(queues: seq<Queue>, actions: seq<Action>)
    requires Lived(queues, actions) && Increasing(actions)
    ensures queues[|actions|] == Runs(actions)
  {
    if actions != [] {
      var n := |actions| - 1;
      var before, a := actions[..n], actions[n];
      IncreasingFront(actions, n);
      LivesAreRuns(queues[..|actions|], before);
      assert May(queues[n], a, queues[n + 1]);
      if Queues(a) {
        assert before + [a] == actions;
        UpsertsNeverTie(before, a);
        TruncatedIsNewest(Runs(before)[a.chat := a.at], queues[n + 1], NUDGE_MAX_PENDING);
      }
    }
  }

  datatype Reply = Delivered | Queued | BadChatId

  class DeviceRoom {
    var pendingNudges: Queue

    method HandleNudge(chat: string, now: int, live: bool) returns (reply: Reply)
      modifies this
      ensures May(old(pendingNudges), Nudge(chat, now, live), pendingNudges)
      ensures NoTies(old(pendingNudges)[chat := now]) ==>
        pendingNudges == Step(old(pendingNudges), Nudge(chat, now, live))
      ensures reply == if !ValidChatId(chat) then BadChatId else if live then Delivered else Queued
    {
      if !ValidChatId(chat) { return BadChatId; }
      if live { return Delivered; }
      pendingNudges := pendingNudges[chat := now];
      Truncate();
      if NoTies(old(pendingNudges)[chat := now]) {
        TruncatedIsNewest(old(pendingNudges)[chat := now], pendingNudges, NUDGE_MAX_PENDING);
      }
      reply := Queued;
    }

    /** Select the newest rows, as many as allowed, and delete all others. */
    method Truncate()
      modifies this
      ensures Truncated(old(pendingNudges), pendingNudges, NUDGE_MAX_PENDING)
    {
      var kept: set<string> := {};
      var rest := pendingNudges.Keys;
      while rest != {} && |kept| < NUDGE_MAX_PENDING
        invariant kept + rest == pendingNudges.Keys && kept !! rest && pendingNudges == old(pendingNudges)
        invariant |kept| <= NUDGE_MAX_PENDING
        invariant forall c, d :: c in kept && d in rest ==> pendingNudges[d] <= pendingNudges[c]
        decreases |rest|
      {
        var c := NudgedLast(rest);
        kept := kept + {c};
        rest := rest - {c};
      }
      KeptRows(pendingNudges, kept, rest, NUDGE_MAX_PENDING);
      pendingNudges := Rows(pendingNudges, kept);
    }

    method NudgedLast(chats: set<string>) returns (newest: string)
      requires chats != {} && chats <= pendingNudges.Keys
      ensures newest in chats && forall c :: c in chats ==> pendingNudges[c] <= pendingNudges[newest]
    {
      newest :| newest in chats;
      var rest := chats - {newest};
      while rest != {}
        invariant rest <= chats && newest in chats
        invariant forall c :: c in chats - rest ==> pendingNudges[c] <= pendingNudges[newest]
        decreases |rest|
      {
        var c :| c in rest;
        if pendingNudges[c] > pendingNudges[newest] { newest := c; }
        rest := rest - {c};
      }
    }

    /** Every queued chat once, the one waiting longest first; then the queue is empty. */
    method ReplayNudges() returns (delivered: seq<string>)
      modifies this
      ensures pendingNudges == map[]
      ensures forall c :: c in delivered <==> c in old(pendingNudges)
      ensures forall i, j :: 0 <= i < j < |delivered| ==> delivered[i] != delivered[j]
      ensures forall i, j :: 0 <= i < j < |delivered| ==>
        old(pendingNudges)[delivered[i]] <= old(pendingNudges)[delivered[j]]
    {
      delivered := [];
      var rest := pendingNudges.Keys;
      while rest != {}
        invariant rest <= pendingNudges.Keys && pendingNudges == old(pendingNudges)
        invariant forall c :: c in pendingNudges <==> c in rest || c in delivered
        invariant forall c :: c in delivered ==> c !in rest
        invariant forall i, j :: 0 <= i < j < |delivered| ==> delivered[i] != delivered[j]
        invariant forall i, j :: 0 <= i < j < |delivered| ==> pendingNudges[delivered[i]] <= pendingNudges[delivered[j]]
        invariant forall c, d :: c in delivered && d in rest ==> pendingNudges[c] <= pendingNudges[d]
        decreases |rest|
      {
        var next := LongestWaiting(rest);
        delivered := delivered + [next];
        rest := rest - {next};
      }
      pendingNudges := map[];
    }

    method LongestWaiting(chats: set<string>) returns (oldest: string)
      requires chats != {} && chats <= pendingNudges.Keys
      ensures oldest in chats && forall c :: c in chats ==> pendingNudges[oldest] <= pendingNudges[c]
    {
      oldest :| oldest in chats;
      var rest := chats - {oldest};
      while rest != {}
        invariant rest <= chats && oldest in chats
        invariant forall c :: c in chats - rest ==> pendingNudges[oldest] <= pendingNudges[c]
        decreases |rest|
      {
        var c :| c in rest;
        if pendingNudges[c] < pendingNudges[oldest] { oldest := c; }
        rest := rest - {c};
      }
    }
  }

  // ----- the live host -----

  datatype Socket = Socket(ws: nat, lastSeenAt: int)

  predicate Candidate(s: Socket, exclude: Option<nat>) { Some(s.ws) != exclude }

  predicate Freshest(h: Socket, hosts: seq<Socket>, exclude: Option<nat>) {
    Candidate(h, exclude) && forall o :: o in hosts && Candidate(o, exclude) ==> o.lastSeenAt <= h.lastSeenAt
  }

  /** The host seen last wins, if it was seen recently enough; the one being closed never does. */
  method PickLiveHost(hosts: seq<Socket>, now: int, exclude: Option<nat>) returns (live: Option<nat>)
    ensures live.Some? <==>
      exists h :: h in hosts && Candidate(h, exclude) && now - h.lastSeenAt <= HOST_LIVENESS_MS
    ensures live.Some? ==> exists h :: h in hosts && h.ws == live.value && Freshest(h, hosts, exclude)
    ensures live.Some? ==> live != exclude
  {
    var best: Option<Socket> := None;
    for i := 0 to |hosts|
      invariant best.None? ==> forall o :: o in hosts[..i] ==> !Candidate(o, exclude)
      invariant best.Some? ==> best.value in hosts && Freshest(best.value, hosts[..i], exclude)
    {
      if Candidate(hosts[i], exclude) && (best.None? || hosts[i].lastSeenAt > best.value.lastSeenAt) {
        best := Some(hosts[i]);
      }
    }
    live := if best.Some? && now - best.value.lastSeenAt <= HOST_LIVENESS_MS then Some(best.value.ws) else None;
  }
}
