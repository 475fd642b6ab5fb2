/** The garbage-collection guard as it is meant: over the history of rounds. The daemon keeps
    a counter per socket instead; Tracks says that the counter is exact. */
module Rounds {

  /** One reconcile round: the orphan sockets put to the guard, those its last answer refused
      to give up, and those put to it more than once. */
  datatype Round = Round(visited: set<string>, kept: set<string>, dup: set<string>)

  const NEW_ROUND := Round({}, {}, {})

  ghost function Before(h: seq<Round>): seq<Round> {
    if h == [] then [] else h[..|h| - 1]
  }

  ghost predicate Visited(h: seq<Round>, s: string) {
    h != [] && s in h[|h| - 1].visited
  }

  /** How far the count for a socket has come: in how many consecutive rounds, ending with the
      last one of `h`, it was refused. A round that put it to the guard twice starts afresh. */
  ghost function Streak(h: seq<Round>, s: string): nat {
    if h == [] || s !in h[|h| - 1].kept then 0
    else if s in h[|h| - 1].dup then 1
    else 1 + Streak(h[..|h| - 1], s)
  }

  /** A streak of n reaches n rounds back. */
  lemma {:induction false} StreakReaches(h: seq<Round>, s: string, k: nat)
    requires k < |h| && |h| - k <= Streak(h, s)
    ensures s in h[k].kept
    decreases |h|
  {
    if k < |h| - 1 {
      StreakReaches(h[..|h| - 1], s, k);
    }
  }

  lemma {:induction false} StreakBounded(h: seq<Round>, s: string)
    ensures Streak(h, s) <= |h|
  {
    if h != [] {
      StreakBounded(h[..|h| - 1], s);
    }
  }

  /** Conversely, being refused in each of the last n rounds makes a streak of at least n, when
      none of them but the first put the socket to the guard twice. */
  lemma {:induction false} StreakBuilt(h: seq<Round>, s: string, n: nat)
    requires n <= |h| && forall k :: |h| - n <= k < |h| ==> s in h[k].kept
    requires forall k :: |h| - n < k < |h| ==> s !in h[k].dup
    ensures Streak(h, s) >= n
    decreases n
  {
    if n > 0 {
      StreakBuilt(h[..|h| - 1], s, n - 1);
    }
  }

  // ----- One visit of the guard within the last round

  ghost function Visit(h: seq<Round>, s: string, refused: bool): seq<Round>
    requires h != []
  {
    var r := h[|h| - 1];
    h[..|h| - 1] + [Round(r.visited + {s}, if refused then r.kept + {s} else r.kept - {s},
                          if s in r.visited then r.dup + {s} else r.dup)]
  }

  /** What a visit counts: one more than the streak before this round, but a second visit of
      the round counts one. */
  ghost function Counted(h: seq<Round>, s: string): nat {
    if Visited(h, s) then 1 else Streak(Before(h), s) + 1
  }

  /** The answer of the guard at a visit. */
  ghost predicate GivesUp(h: seq<Round>, grace: int, present: bool, s: string) {
    !present || (grace > 0 && Counted(h, s) >= grace)
  }

  /** Its answer at the first visit of a round, by the rounds before. */
  ghost predicate MayDelete(past: seq<Round>, grace: int, present: bool, s: string) {
    !present || (grace > 0 && Streak(past, s) + 1 >= grace)
  }

  lemma VisitStreak(h: seq<Round>, s: string, refused: bool)
    requires h != [] && h[|h| - 1].dup <= h[|h| - 1].visited
    ensures Before(Visit(h, s, refused)) == Before(h)
    ensures Streak(Visit(h, s, refused), s) == if refused then Counted(h, s) else 0
  {
  }

  /** A visit concerns no other socket. */
  lemma VisitElsewhere(h: seq<Round>, s: string, refused: bool, u: string)
    requires h != [] && u != s
    ensures var h' := Visit(h, s, refused);
            && Before(h') == Before(h) && (Visited(h', u) <==> Visited(h, u))
            && (u in h'[|h'| - 1].kept <==> u in h[|h| - 1].kept) && (u in h'[|h'| - 1].dup <==> u in h[|h| - 1].dup)
            && Streak(h', u) == Streak(h, u)
  {
  }

  // ----- The counter

  datatype OrphanRound = OrphanRound(count: nat, lastRound: nat)

  /** Refused sockets and repeated ones were visited. */
  ghost predicate WellKept(h: seq<Round>) {
    forall k :: 0 <= k < |h| ==> h[k].kept <= h[k].visited && h[k].dup <= h[k].visited
  }

  /** Between rounds: the counter of the last round is the streak, an older one counts for nothing. */
  ghost predicate Exact(seen: map<string, OrphanRound>, h: seq<Round>, s: string) {
    && (s in seen ==> 0 < seen[s].lastRound <= |h|)
    && (if s in seen && seen[s].lastRound == |h| then seen[s].count == Streak(h, s) else Streak(h, s) == 0)
  }

  /** Within a round, at a socket it has visited. */
  ghost predicate ExactNow(seen: map<string, OrphanRound>, h: seq<Round>, s: string)
    requires h != []
  {
    if s in h[|h| - 1].kept then s in seen && seen[s] == OrphanRound(Streak(h, s), |h|) else s !in seen
  }

  /** The counters are exactly what the history says, for every socket. */
  ghost predicate Tracks(seen: map<string, OrphanRound>, h: seq<Round>, grace: int) {
    && WellKept(h)
    && (grace <= 0 ==> seen == map[])
    && (grace > 0 ==> forall s :: if Visited(h, s) then ExactNow(seen, h, s) else Exact(seen, Before(h), s))
  }

  lemma TracksExact(seen: map<string, OrphanRound>, h: seq<Round>, grace: int, s: string)
    requires grace > 0 && Tracks(seen, h, grace)
    ensures Exact(seen, h, s)
  {
    if Visited(h, s) {
      assert ExactNow(seen, h, s);
    } else {
      assert Exact(seen, Before(h), s);
    }
  }

  lemma TracksNewRound(seen: map<string, OrphanRound>, h: seq<Round>, grace: int)
    requires Tracks(seen, h, grace)
    ensures Tracks(seen, h + [NEW_ROUND], grace)
  {
    assert Before(h + [NEW_ROUND]) == h;
    forall s | grace > 0 ensures Exact(seen, h, s) {
      TracksExact(seen, h, grace, s);
    }
  }

  /** What the counter says at a visit: one more than the last round, or a fresh start. */
  function NextCount(seen: map<string, OrphanRound>, round: nat, s: string): nat {
    var rec := if s in seen then seen[s] else OrphanRound(0, 0);
    if rec.lastRound == round - 1 then rec.count + 1 else 1
  }

  /** The counter counts what the history says, for every socket and at every visit. */
  lemma NextCountExact(seen: map<string, OrphanRound>, h: seq<Round>, grace: int, s: string)
    requires grace > 0 && h != [] && Tracks(seen, h, grace)
    ensures NextCount(seen, |h|, s) == Counted(h, s)
  {
    if Visited(h, s) {
      assert ExactNow(seen, h, s);
    } else {
      assert Exact(seen, Before(h), s);
    }
  }

  /** So between rounds the counter of any socket holds its streak: the first visit of the next
      round counts one more. */
  lemma NextRoundCounts(seen: map<string, OrphanRound>, h: seq<Round>, grace: int, s: string)
    requires grace > 0 && Tracks(seen, h, grace)
    ensures NextCount(seen, |h| + 1, s) == Streak(h, s) + 1
  {
    TracksExact(seen, h, grace, s);
  }

  /** A refusal with the counter set keeps the counters exact. */
  lemma TracksRefused(seen: map<string, OrphanRound>, h: seq<Round>, grace: int, s: string)
    requires grace > 0 && h != [] && Tracks(seen, h, grace)
    ensures Tracks(seen[s := OrphanRound(NextCount(seen, |h|, s), |h|)], Visit(h, s, true), grace)
  {
    var h', seen' := Visit(h, s, true), seen[s := OrphanRound(NextCount(seen, |h|, s), |h|)];
    NextCountExact(seen, h, grace, s);
    forall u ensures if Visited(h', u) then ExactNow(seen', h', u) else Exact(seen', Before(h'), u) {
      if u == s {
        VisitStreak(h, s, true);
      } else {
        VisitElsewhere(h, s, true, u);
        assert if Visited(h, u) then ExactNow(seen, h, u) else Exact(seen, Before(h), u);
      }
    }
  }

  /** Giving a socket up drops its counter. */
  lemma TracksGivenUp(seen: map<string, OrphanRound>, h: seq<Round>, grace: int, s: string)
    requires h != [] && Tracks(seen, h, grace)
    ensures Tracks(seen - {s}, Visit(h, s, false), grace)
  {
    var h', seen' := Visit(h, s, false), seen - {s};
    forall u | grace > 0 ensures if Visited(h', u) then ExactNow(seen', h', u) else Exact(seen', Before(h'), u) {
      if u == s {
        VisitStreak(h, s, false);
      } else {
        VisitElsewhere(h, s, false, u);
        assert if Visited(h, u) then ExactNow(seen, h, u) else Exact(seen, Before(h), u);
      }
    }
  }

  lemma TracksUncounted(seen: map<string, OrphanRound>, h: seq<Round>, grace: int, s: string)
    requires grace <= 0 && h != [] && Tracks(seen, h, grace)
    ensures Tracks(seen, Visit(h, s, true), grace)
  {
  }
}
