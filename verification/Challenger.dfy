/** The fault-proof challenger: a loop that challenges and resolves dispute games. */
module Challenger {
  import opened Prelude

  datatype ProposalStatus =
    | Unchallenged
    | Challenged
    | UnchallengedAndValidProofProvided
    | ChallengedAndValidProofProvided
    | Resolved

  datatype GameStatus = InProgress | ChallengerWins | DefenderWins

  datatype Game = Game(
    status: ProposalStatus,
    outcome: GameStatus,
    deadline: nat,
    parent: Option<nat>,
    block: nat,
    claim: Root)

  /** The games in creation order; a game's index never changes. */
  type Games = seq<Game>

  /** `roots` is the output root the L2 node computes for a block. */
  predicate Wrong(g: Game, roots: nat -> Root) {
    g.claim != roots(g.block)
  }

  predicate Challengeable(g: Game, now: nat, roots: nat -> Root) {
    g.status == Unchallenged && now <= g.deadline && Wrong(g, roots)
  }

  /** The first index of the window: the latest index less the window size, but not below 0. */
  function WindowStart(count: nat, window: nat): nat {
    if window + 1 <= count then count - 1 - window else 0
  }

  /** The oldest challengeable game at or after index i. */
  function OldestFrom(games: Games, i: nat, now: nat, roots: nat -> Root): (r: Option<nat>)
    requires i <= |games|
    ensures r.None? <==> forall j :: i <= j < |games| ==> !Challengeable(games[j], now, roots)
    ensures r.Some? ==> i <= r.value < |games| && Challengeable(games[r.value], now, roots)
    ensures r.Some? ==> forall j :: i <= j < r.value ==> !Challengeable(games[j], now, roots)
    decreases |games| - i
  {
    if i == |games| then None
    else if Challengeable(games[i], now, roots) then Some(i)
    else OldestFrom(games, i + 1, now, roots)
  }

  function Oldest(games: Games, window: nat, now: nat, roots: nat -> Root): Option<nat> {
    OldestFrom(games, WindowStart(|games|, window), now, roots)
  }

  /** The effect of a challenge: the game is challenged and gets a new deadline for its proof. */
  function Challenge(games: Games, i: nat, deadline: nat): Games
    requires i < |games|
  {
    games[i := games[i].(status := Challenged, deadline := deadline)]
  }

  predicate Resolvable(g: Game, now: nat) {
    g.outcome == InProgress && g.status == Challenged && g.deadline < now
  }

  function Resolve(g: Game): Game {
    g.(status := Resolved, outcome := ChallengerWins)
  }

  /** The games after every resolvable one from index lo up to hi has been resolved. */
  function ResolvedIn(games: Games, lo: nat, hi: nat, now: nat): (games': Games)
    ensures |games'| == |games|
    ensures forall i :: 0 <= i < |games| ==>
              games'[i] == if lo <= i < hi && Resolvable(games[i], now) then Resolve(games[i]) else games[i]
  {
    seq(|games|, i requires 0 <= i < |games| =>
      if lo <= i < hi && Resolvable(games[i], now) then Resolve(games[i]) else games[i])
  }

  ghost predicate AllSent(games: Games, lo: nat, hi: nat, now: nat, sent: nat -> bool) {
    forall i :: lo <= i < hi && i < |games| && Resolvable(games[i], now) ==> sent(i)
  }

  /** Game i could not be resolved, and everything before it was. */
  ghost predicate StoppedAt(games: Games, games': Games, lo: nat, i: nat, now: nat, sent: nat -> bool) {
    && lo <= i < |games| - 1 && Resolvable(games[i], now) && !sent(i)
    && AllSent(games, lo, i, now, sent) && games' == ResolvedIn(games, lo, i, now)
  }

  /** The game has no parent, or a parent that is no longer in progress. */
  predicate ParentSettled(games: Games, i: nat)
    requires i < |games|
  {
    match games[i].parent
    case None => true
    case Some(p) => p < |games| && games[p].outcome != InProgress
  }

  /**
   What a round of resolutions does: nothing when the parent of the oldest game is unsettled; else
   it resolves every resolvable game from the oldest on, the latest one excepted, up to the first
   whose transaction does not go through.
   */
  ghost predicate ResolveOutcome(games: Games, games': Games, window: nat, now: nat, sent: nat -> bool, done: bool) {
    var lo := WindowStart(|games|, window);
    if games == [] then done && games' == games
    else if !ParentSettled(games, lo) then !done && games' == games
    else if done then
      AllSent(games, lo, |games| - 1, now, sent) && games' == ResolvedIn(games, lo, |games| - 1, now)
    else exists i :: StoppedAt(games, games', lo, i, now, sent)
  }

  // Runs.

  /** The chain, the latest time read, and the games this challenger has challenged. */
  datatype State = State(games: Games, now: nat, mine: set<nat>)

  datatype Event =
    | Create(game: Game)
    | Look(now: nat, accepted: bool, deadline: nat)
    | Move(i: nat, status: ProposalStatus, outcome: GameStatus, deadline: nat)

  /**
   A look is the challenging half of a tick; its transaction may be rejected. A move is anything
   that takes a game forward: a resolution, a proof, or a challenge by somebody else.
   */
  ghost predicate Enabled(s: State, e: Event) {
    match e
    case Create(game) => game.status == Unchallenged
    case Look(now, _, _) => s.now <= now
    case Move(i, status, _, _) => i < |s.games| && status != Unchallenged
  }

  ghost function Apply(s: State, e: Event, window: nat, roots: nat -> Root): State
    requires Enabled(s, e)
  {
    match e
    case Create(game) => s.(games := s.games + [game])
    case Look(now, accepted, deadline) =>
      var oldest := Oldest(s.games, window, now, roots);
      if accepted && oldest.Some?
      then State(Challenge(s.games, oldest.value, deadline), now, s.mine + {oldest.value})
      else s.(now := now)
    case Move(i, status, outcome, deadline) =>
      s.(games := s.games[i := s.games[i].(status := status, outcome := outcome, deadline := deadline)])
  }

  ghost predicate Runs(s: State, events: seq<Event>, s': State, window: nat, roots: nat -> Root)
    decreases |events|
  {
    if events == [] then s' == s
    else Enabled(s, events[0]) && Runs(Apply(s, events[0], window, roots), events[1..], s', window, roots)
  }

  lemma {:induction false} RunsPush(
      s: State, events: seq<Event>, s': State, e: Event, window: nat, roots: nat -> Root)
    requires Runs(s, events, s', window, roots) && Enabled(s', e)
    ensures Runs(s, events + [e], Apply(s', e, window, roots), window, roots)
    decreases |events|
  {
    if events == [] {
      assert [e][1..] == [];
    } else {
      RunsPush(Apply(s, events[0], window, roots), events[1..], s', e, window, roots);
      assert (events + [e])[1..] == events[1..] + [e];
    }
  }

  lemma RunsNothing(s: State, window: nat, roots: nat -> Root)
    ensures Runs(s, [], s, window, roots)
  {
  }

  class ChallengerLoop {
    var games: Games
    const window: nat
    const resolveWindow: nat
    const roots: nat -> Root

    constructor (games: Games, window: nat, resolveWindow: nat, roots: nat -> Root)
      ensures this.games == games && this.window == window
      ensures this.resolveWindow == resolveWindow && this.roots == roots
    {
      this.games, this.window, this.resolveWindow, this.roots := games, window, resolveWindow, roots;
    }

    /** The scan finds the oldest game of the window that is unchallenged, open and wrong, if there is one. */
    method GetOldestChallengableGame(now: nat) returns (r: Option<nat>)
      ensures r == Oldest(games, window, now, roots)
    {
      if |games| == 0 {
        return None;
      }
      var latest := |games| - 1;
      var i := if window <= latest then latest - window else 0;
      while true
        invariant WindowStart(|games|, window) <= i <= latest + 1
        invariant OldestFrom(games, i, now, roots) == Oldest(games, window, now, roots)
        decreases latest + 1 - i
      {
        if i > latest {
          return None;
        }
        var game := games[i];
        if game.status != Unchallenged {
          i := i + 1;
          continue;
        }
        if game.deadline < now {
          i := i + 1;
          continue;
        }
        if roots(game.block) != game.claim {
          break;
        }
        i := i + 1;
      }
      return Some(i);
    }

    /** The challenging half of a tick is one `Look`. */
    method HandleGameChallenging(now: nat, accepted: bool, deadline: nat, ghost s: State) returns (ghost s': State)
      requires s.games == games && s.now <= now
      modifies this
      ensures s' == Apply(s, Look(now, accepted, deadline), window, roots) && games == s'.games
    {
      var oldest := GetOldestChallengableGame(now);
      if oldest.Some? && accepted {
        games := Challenge(games, oldest.value, deadline);
      }
      s' := Apply(s, Look(now, accepted, deadline), window, roots);
    }

    /** Whether the oldest game of the window has no parent, or a parent that is no longer in progress. */
    method ShouldAttemptResolution(oldest: nat) returns (r: Result<bool, ()>)
      requires oldest < |games|
      ensures r.Err? <==> games[oldest].parent.Some? && |games| <= games[oldest].parent.value
      ensures r == Ok(true) <==> ParentSettled(games, oldest)
    {
      match games[oldest].parent {
        case None => return Ok(true);
        case Some(p) =>
          if |games| <= p {
            return Err(());
          }
          return Ok(games[p].outcome != InProgress);
      }
    }

    /**
     The resolving half of a tick: `sent(i)` says whether the transaction for game i goes through,
     and the first that does not ends the round.
     */
    method ResolveGames(now: nat, sent: nat -> bool, ghost s: State)
      returns (done: bool, ghost events: seq<Event>, ghost s': State)
      requires s.games == games
      modifies this
      ensures Runs(s, events, s', window, roots) && games == s'.games
      ensures s'.mine == s.mine && s'.now == s.now && forall e :: e in events ==> e.Move?
      ensures ResolveOutcome(s.games, s'.games, resolveWindow, now, sent, done)
    {
      hide Runs, Apply;
      events, s', done := [], s, false;
      RunsNothing(s, window, roots);
      if |games| == 0 {
        return true, events, s';
      }
      var latest := |games| - 1;
      var oldest := if resolveWindow <= latest then latest - resolveWindow else 0;
      var toCheck := if latest < resolveWindow then latest else resolveWindow;
      var attempt := ShouldAttemptResolution(oldest);
      if attempt != Ok(true) {
        return false, events, s';
      }
      assert games == ResolvedIn(games, oldest, oldest, now);
      for k := 0 to toCheck
        invariant games == s'.games == ResolvedIn(s.games, oldest, oldest + k, now)
        invariant AllSent(s.games, oldest, oldest + k, now, sent)
        invariant s'.mine == s.mine && s'.now == s.now
        invariant Runs(s, events, s', window, roots) && forall e :: e in events ==> e.Move?
      {
        var i := oldest + k;
        if games[i].outcome == InProgress && games[i].status == Challenged && games[i].deadline < now {
          if !sent(i) {
            assert StoppedAt(s.games, games, oldest, i, now, sent);
            return false, events, s';
          }
          events, s' := Resolution(s, events, s', i);
          games := games[i := Resolve(games[i])];
        }
        assert games == ResolvedIn(s.games, oldest, oldest + k + 1, now);
      }
      done := true;
    }

    /** A resolution is a move. */
    lemma Resolution(s: State, events: seq<Event>, s': State, i: nat) returns (events': seq<Event>, next: State)
      requires Runs(s, events, s', window, roots) && i < |s'.games| && forall e :: e in events ==> e.Move?
      ensures Runs(s, events', next, window, roots) && forall e :: e in events' ==> e.Move?
      ensures next == s'.(games := s'.games[i := Resolve(s'.games[i])])
    {
      var e := Move(i, Resolved, ChallengerWins, s'.games[i].deadline);
      RunsPush(s, events, s', e, window, roots);
      events', next := events + [e], Apply(s', e, window, roots);
    }

    /** One round of the endless loop: a look, then the resolutions. */
    method Tick(now: nat, accepted: bool, deadline: nat, sent: nat -> bool, ghost s: State)
      returns (done: bool, ghost events: seq<Event>, ghost s': State)
      requires s.games == games && s.now <= now
      modifies this
      ensures Runs(s, events, s', window, roots) && games == s'.games
      ensures events != [] && events[0] == Look(now, accepted, deadline)
      ensures forall e :: e in events[1..] ==> e.Move?
      ensures
        var looked := Apply(s, Look(now, accepted, deadline), window, roots);
        s'.mine == looked.mine && s'.now == now && ResolveOutcome(looked.games, games, resolveWindow, now, sent, done)
    {
      hide ResolveOutcome;
      ghost var look := Look(now, accepted, deadline);
      ghost var s1 := HandleGameChallenging(now, accepted, deadline, s);
      done, events, s' := ResolveGames(now, sent, s1);
      assert ([look] + events)[1..] == events;
      events := [look] + events;
    }
  }

  // Only wrong claims are challenged.

  ghost predicate MineWrong(s: State, roots: nat -> Root) {
    forall i :: i in s.mine ==> i < |s.games| && Wrong(s.games[i], roots)
  }

  /** Every game this challenger has challenged, in any run, makes a claim that differs from the computed root. */
  lemma {:induction false} OnlyWrongChallenged(
      s: State, events: seq<Event>, s': State, window: nat, roots: nat -> Root)
    requires MineWrong(s, roots) && Runs(s, events, s', window, roots)
    ensures MineWrong(s', roots)
    decreases |events|
  {
    if events != [] {
      OnlyWrongChallenged(Apply(s, events[0], window, roots), events[1..], s', window, roots);
    }
  }

  /**
   What becomes of a challenged game that nobody proves: until its new deadline a round of resolutions
   leaves it alone, and after it a completed round that looks at it makes the challenger win. Its claim
   and block stay as they were.
   */
  lemma ChallengeIsWon(
      s: State, look: Event, i: nat, window: nat, roots: nat -> Root, games': Games, resolveWindow: nat, now: nat,
      sent: nat -> bool, done: bool)
    requires look.Look? && look.accepted && Enabled(s, look)
    requires Oldest(s.games, window, look.now, roots) == Some(i) && s.games[i].outcome == InProgress
    requires ResolveOutcome(Apply(s, look, window, roots).games, games', resolveWindow, now, sent, done)
    ensures |games'| == |s.games| && i < |s.games|
    ensures now <= look.deadline ==>
      games'[i] == s.games[i].(status := Challenged, deadline := look.deadline)
    ensures look.deadline < now && done && WindowStart(|s.games|, resolveWindow) <= i < |s.games| - 1 ==>
      games'[i].outcome == ChallengerWins && games'[i].status == Resolved
    ensures games'[i].claim == s.games[i].claim && games'[i].block == s.games[i].block
  {
    var s1 := Apply(s, look, window, roots);
    assert s1.games[i] == s.games[i].(status := Challenged, deadline := look.deadline);
  }

  /** A wrong game in progress is open to a challenge exactly as long as, if challenged, it is not yet due. */
  lemma OpenOrOver(g: Game, now: nat, roots: nat -> Root)
    requires Wrong(g, roots) && g.outcome == InProgress
    ensures Challengeable(g.(status := Unchallenged), now, roots) <==> !Resolvable(g.(status := Challenged), now)
  {
  }

  // Draining.

  /** The challengeable games of the window. */
  ghost function Pending(games: Games, window: nat, now: nat, roots: nat -> Root): set<nat> {
    set i: nat | WindowStart(|games|, window) <= i < |games| && Challengeable(games[i], now, roots)
  }

  ghost predicate Least(i: nat, xs: set<nat>) {
    i in xs && forall j :: j in xs ==> i <= j
  }

  /** An accepted look takes exactly the oldest pending game off the list. */
  lemma LookTakesOldest(s: State, e: Event, window: nat, roots: nat -> Root)
    requires e.Look? && e.accepted && Enabled(s, e)
    ensures
      var pending := Pending(s.games, window, e.now, roots);
      var s' := Apply(s, e, window, roots);
      var pending' := Pending(s'.games, window, e.now, roots);
      if pending == {} then s' == s.(now := e.now)
      else exists i :: Least(i, pending) && pending' == pending - {i} && s'.mine == s.mine + {i}
  {
    var pending := Pending(s.games, window, e.now, roots);
    var s' := Apply(s, e, window, roots);
    match Oldest(s.games, window, e.now, roots) {
      case None =>
        assert pending == {};
      case Some(i) =>
        assert Least(i, pending);
        assert Pending(s'.games, window, e.now, roots) == pending - {i};
    }
  }

  /** An accepted look at each event, no later than `last`. */
  ghost predicate Looks(events: seq<Event>, last: nat) {
    forall e :: e in events ==> e.Look? && e.accepted && e.now <= last
  }

  /** No pending deadline passes before `last`. */
  ghost predicate StaysOpen(s: State, window: nat, last: nat, roots: nat -> Root) {
    Pending(s.games, window, s.now, roots) == Pending(s.games, window, last, roots)
  }

  lemma PendingShrinks(games: Games, window: nat, a: nat, b: nat, roots: nat -> Root)
    requires a <= b
    ensures Pending(games, window, b, roots) <= Pending(games, window, a, roots)
  {
  }

  /** A look before the last deadline leaves the others open. */
  lemma LookStaysOpen(s: State, e: Event, window: nat, last: nat, roots: nat -> Root)
    requires e.Look? && e.accepted && Enabled(s, e) && e.now <= last && StaysOpen(s, window, last, roots)
    ensures Pending(s.games, window, e.now, roots) == Pending(s.games, window, s.now, roots)
    ensures StaysOpen(Apply(s, e, window, roots), window, last, roots)
  {
    PendingShrinks(s.games, window, s.now, e.now, roots);
    PendingShrinks(s.games, window, e.now, last, roots);
    var s' := Apply(s, e, window, roots);
    forall i | i in Pending(s'.games, window, s'.now, roots) ensures i in Pending(s'.games, window, last, roots) {
      assert s'.games[i] == s.games[i];
      assert i in Pending(s.games, window, e.now, roots);
    }
    PendingShrinks(s'.games, window, s'.now, last, roots);
  }

  /** `taken` are the n oldest of the pending games, and `left` are the others. */
  ghost predicate OldestTaken(pending: set<nat>, left: set<nat>, taken: set<nat>, n: nat) {
    && left <= pending && taken == pending - left
    && (forall i, j :: i in taken && j in left ==> i < j)
    && |left| == if n <= |pending| then |pending| - n else 0
  }

  lemma OldestTakenStep(pending: set<nat>, i: nat, left: set<nat>, taken: set<nat>, n: nat)
    requires Least(i, pending) && OldestTaken(pending - {i}, left, taken, n)
    ensures OldestTaken(pending, left, {i} + taken, n + 1)
  {
    assert |pending| == |pending - {i}| + 1;
  }

  /**
   With no new games and no deadline passing, n looks challenge the n oldest pending games, and as
   many looks as there are pending games leave none.
   */
  lemma {:induction false} Drained(
      s: State, events: seq<Event>, s': State, window: nat, last: nat, roots: nat -> Root) returns (taken: set<nat>)
    requires Runs(s, events, s', window, roots) && Looks(events, last) && StaysOpen(s, window, last, roots)
    ensures s'.mine == s.mine + taken
    ensures
      var pending := Pending(s.games, window, s.now, roots);
      OldestTaken(pending, Pending(s'.games, window, s'.now, roots), taken, |events|)
    decreases |events|
  {
    hide Pending, OldestTaken, StaysOpen;
    var pending := Pending(s.games, window, s.now, roots);
    if events == [] {
      taken := {};
      NoneTaken(pending);
    } else {
      var e := events[0];
      assert e in events;
      var s1 := Apply(s, e, window, roots);
      LookStaysOpen(s, e, window, last, roots);
      LookTakesOldest(s, e, window, roots);
      taken := Drained(s1, events[1..], s', window, last, roots);
      if pending == {} {
        NothingLeft(Pending(s'.games, window, s'.now, roots), taken, |events| - 1);
      } else {
        var i :| Least(i, pending) && Pending(s1.games, window, e.now, roots) == pending - {i}
                 && s1.mine == s.mine + {i};
        OldestTakenStep(pending, i, Pending(s'.games, window, s'.now, roots), taken, |events| - 1);
        taken := {i} + taken;
      }
    }
  }

  lemma NoneTaken(pending: set<nat>)
    ensures OldestTaken(pending, pending, {}, 0)
  {
  }

  lemma NothingLeft(left: set<nat>, taken: set<nat>, n: nat)
    requires OldestTaken({}, left, taken, n)
    ensures OldestTaken({}, left, taken, n + 1)
  {
  }

  // What escapes the window.

  /** No game before index n can still be challenged. */
  ghost predicate SettledBefore(s: State, n: nat, roots: nat -> Root) {
    forall i :: 0 <= i < n && i < |s.games| ==> !Challengeable(s.games[i], s.now, roots)
  }

  /** Every game that has left the window can no longer be challenged. */
  ghost predicate NoneEscaped(s: State, window: nat, roots: nat -> Root) {
    SettledBefore(s, WindowStart(|s.games|, window), roots)
  }

  /** The backlog of creations: one more for each, one less, but not below zero, for each accepted look. */
  function Backlog(q: nat, e: Event): nat {
    match e
    case Create(_) => q + 1
    case Look(_, accepted, _) => if accepted && q > 0 then q - 1 else q
    case Move(_, _, _, _) => q
  }

  /** Starting from q, the backlog never exceeds the cap. */
  ghost predicate Within(events: seq<Event>, q: nat, cap: nat) {
    q <= cap && (events == [] || Within(events[1..], Backlog(q, events[0]), cap))
  }

  /** The challengeable games up to index i. */
  ghost function OpenUpTo(s: State, i: nat, roots: nat -> Root): set<nat> {
    set j: nat | j <= i && j < |s.games| && Challengeable(s.games[j], s.now, roots)
  }

  /** A challengeable game is answered before q games in all: those open before it and those created after it. */
  ghost predicate Queued(s: State, q: nat, roots: nat -> Root) {
    forall i :: 0 <= i < |s.games| && Challengeable(s.games[i], s.now, roots) ==>
      |OpenUpTo(s, i, roots)| + (|s.games| - 1 - i) <= q
  }

  lemma {:induction false} SubsetSize(a: set<nat>, b: set<nat>)
    requires a <= b
    ensures |a| <= |b|
  {
    if a != {} {
      var x :| x in a;
      SubsetSize(a - {x}, b - {x});
    }
  }

  lemma QueuedSettled(s: State, q: nat, window: nat, roots: nat -> Root)
    requires Queued(s, q, roots) && q <= window + 1
    ensures NoneEscaped(s, window, roots)
  {
    forall i | 0 <= i < WindowStart(|s.games|, window) && i < |s.games|
      ensures !Challengeable(s.games[i], s.now, roots)
    {
      assert Challengeable(s.games[i], s.now, roots) ==> i in OpenUpTo(s, i, roots);
    }
  }

  /** Settling games, or letting time pass, keeps the queue. */
  lemma QueuedFewer(s: State, s': State, q: nat, roots: nat -> Root)
    requires Queued(s, q, roots) && |s'.games| == |s.games|
    requires forall i :: 0 <= i < |s.games| && Challengeable(s'.games[i], s'.now, roots) ==>
               Challengeable(s.games[i], s.now, roots)
    ensures Queued(s', q, roots)
  {
    forall i | 0 <= i < |s'.games| && Challengeable(s'.games[i], s'.now, roots)
      ensures |OpenUpTo(s', i, roots)| + (|s'.games| - 1 - i) <= q
    {
      SubsetSize(OpenUpTo(s', i, roots), OpenUpTo(s, i, roots));
    }
  }

  lemma QueuedCreate(s: State, game: Game, q: nat, roots: nat -> Root)
    requires Queued(s, q, roots)
    ensures Queued(s.(games := s.games + [game]), q + 1, roots)
  {
    hide OpenUpTo, Challengeable;
    var s' := s.(games := s.games + [game]);
    var n := |s.games|;
    forall i | 0 <= i <= n && Challengeable(s'.games[i], s'.now, roots)
      ensures |OpenUpTo(s', i, roots)| + (n - i) <= q + 1
    {
      OpenCreate(s, game, i, roots);
      if i < n {
        assert s'.games[i] == s.games[i];
      } else {
        OpenAtMost(s, n, q, roots);
        SubsetSize(OpenUpTo(s', n, roots), OpenUpTo(s, n, roots) + {n});
      }
    }
  }

  lemma OpenCreate(s: State, game: Game, i: nat, roots: nat -> Root)
    ensures
      var s' := s.(games := s.games + [game]);
      OpenUpTo(s', i, roots) <= OpenUpTo(s, i, roots) + {|s.games|}
      && (i < |s.games| ==> OpenUpTo(s', i, roots) == OpenUpTo(s, i, roots))
  {
    hide Challengeable;
  }

  /** No more games than the queue is long are challengeable. */
  lemma {:induction false} OpenAtMost(s: State, i: nat, q: nat, roots: nat -> Root)
    requires Queued(s, q, roots)
    ensures |OpenUpTo(s, i, roots)| <= q
  {
    hide OpenUpTo, Challengeable;
    if !(i < |s.games| && Challengeable(s.games[i], s.now, roots)) {
      OpenSkip(s, i, roots);
      if i > 0 {
        OpenAtMost(s, i - 1, q, roots);
      }
    }
  }

  lemma OpenSkip(s: State, i: nat, roots: nat -> Root)
    requires i < |s.games| ==> !Challengeable(s.games[i], s.now, roots)
    ensures OpenUpTo(s, i, roots) == if i == 0 then {} else OpenUpTo(s, i - 1, roots)
  {
    hide Challengeable;
    if i == 0 {
      assert forall j :: j !in OpenUpTo(s, i, roots);
    } else {
      assert forall j :: j in OpenUpTo(s, i, roots) <==> j in OpenUpTo(s, i - 1, roots);
    }
  }

  /** An accepted look moves the whole queue up by one. */
  lemma QueuedLook(s: State, e: Event, q: nat, window: nat, roots: nat -> Root)
    requires Queued(s, q, roots) && q <= window + 1 && e.Look? && e.accepted && Enabled(s, e)
    ensures Queued(Apply(s, e, window, roots), Backlog(q, e), roots)
  {
    var later := s.(now := e.now);
    QueuedFewer(s, later, q, roots);
    QueuedSettled(later, q, window, roots);
    var s' := Apply(s, e, window, roots);
    forall i | 0 <= i < |s'.games| && Challengeable(s'.games[i], s'.now, roots)
      ensures |OpenUpTo(s', i, roots)| + (|s'.games| - 1 - i) <= Backlog(q, e)
    {
      var m := Oldest(s.games, window, e.now, roots).value;
      assert m in OpenUpTo(later, i, roots) && m !in OpenUpTo(s', i, roots);
      SubsetSize(OpenUpTo(s', i, roots) + {m}, OpenUpTo(later, i, roots));
    }
  }

  lemma EventQueues(s: State, e: Event, q: nat, window: nat, roots: nat -> Root)
    requires Queued(s, q, roots) && q <= window + 1 && Enabled(s, e)
    ensures Queued(Apply(s, e, window, roots), Backlog(q, e), roots)
  {
    if e.Create? {
      QueuedCreate(s, e.game, q, roots);
    } else if e.Look? && e.accepted {
      QueuedLook(s, e, q, window, roots);
    } else {
      QueuedFewer(s, Apply(s, e, window, roots), q, roots);
    }
  }

  /**
   The promise of the loop, from any state whose challengeable games form a queue of length q: as
   long as the backlog of creations stays within the games the window holds, no game leaves the
   window while it can still be challenged. Moves and rejected looks may happen at any time.
   */
  lemma {:induction false} NothingEscapes(
      s: State, events: seq<Event>, s': State, q: nat, window: nat, roots: nat -> Root)
    requires Queued(s, q, roots) && Runs(s, events, s', window, roots) && Within(events, q, window + 1)
    ensures NoneEscaped(s', window, roots)
    decreases |events|
  {
    hide Queued, Apply, NoneEscaped;
    if events == [] {
      QueuedSettled(s, q, window, roots);
    } else {
      var e := events[0];
      EventQueues(s, e, q, window, roots);
      NothingEscapes(Apply(s, e, window, roots), events[1..], s', Backlog(q, e), window, roots);
    }
  }

  // Where the backlog exceeds the window, some choice of games escapes.

  /** The same beats: creations at the same places, of any games, and otherwise the same events. */
  ghost predicate SameBeats(events: seq<Event>, events': seq<Event>) {
    |events| == |events'|
    && forall k :: 0 <= k < |events| ==> if events[k].Create? then events'[k].Create? else events'[k] == events[k]
  }

  lemma {:induction false} WithinSame(events: seq<Event>, events': seq<Event>, q: nat, cap: nat)
    requires SameBeats(events, events') && Within(events, q, cap)
    ensures Within(events', q, cap)
    decreases |events|
  {
    if events != [] {
      WithinSame(events[1..], events'[1..], Backlog(q, events[0]), cap);
    }
  }

  lemma {:induction false} WithinPrefix(events: seq<Event>, k: nat, q: nat, cap: nat)
    requires k <= |events| && Within(events, q, cap)
    ensures Within(events[..k], q, cap)
    decreases k
  {
    if k > 0 {
      WithinPrefix(events[1..], k - 1, Backlog(q, events[0]), cap);
      assert events[..k][1..] == events[1..][..k - 1];
    }
  }

  /** Creations and looks only, in order of time, the last look at time `last` or before. */
  ghost predicate Timed(events: seq<Event>, now: nat, last: nat) {
    now <= last
    && (events == [] ||
        match events[0]
        case Create(_) => Timed(events[1..], now, last)
        case Look(t, _, _) => now <= t && Timed(events[1..], t, last)
        case Move(_, _, _, _) => false)
  }

  /** Every creation is of `game`. */
  ghost function Recast(events: seq<Event>, game: Game): (events': seq<Event>)
    ensures SameBeats(events, events')
  {
    seq(|events|, k requires 0 <= k < |events| => if events[k].Create? then Create(game) else events[k])
  }

  /** The latest q games are untouched copies of `game`, and all before them have been answered. */
  ghost predicate Copies(s: State, q: nat, game: Game) {
    && q <= |s.games|
    && (forall i :: 0 <= i < |s.games| - q ==> s.games[i].status != Unchallenged)
    && (forall i :: |s.games| - q <= i < |s.games| ==> s.games[i] == game)
  }

  /** While the copies fit in the window, the backlog counts them exactly. */
  lemma EventCopies(s: State, e: Event, q: nat, game: Game, window: nat, roots: nat -> Root)
    requires Copies(s, q, game) && q <= window + 1 && Enabled(s, e) && !e.Move?
    requires e.Create? ==> e.game == game
    requires e.Look? ==> Challengeable(game, e.now, roots)
    ensures Copies(Apply(s, e, window, roots), Backlog(q, e), game)
  {
    if e.Look? && e.accepted {
      var first := |s.games| - q;
      assert q > 0 ==> s.games[first] == game;
      assert q > 0 ==> Oldest(s.games, window, e.now, roots) == Some(first);
    }
  }

  /** Once the backlog exceeds what the window holds, the oldest copy is outside the window and challengeable. */
  lemma CopyEscapes(s: State, q: nat, game: Game, window: nat, roots: nat -> Root)
    requires Copies(s, q, game) && q > window + 1 && Challengeable(game, s.now, roots)
    ensures !NoneEscaped(s, window, roots)
  {
    assert s.games[|s.games| - q] == game;
  }

  lemma {:induction false} Overflows(
      s: State, events: seq<Event>, q: nat, game: Game, last: nat, window: nat, roots: nat -> Root)
    returns (k: nat, s': State)
    requires Copies(s, q, game) && !Within(events, q, window + 1) && Timed(events, s.now, last)
    requires Challengeable(game, last, roots)
    ensures k <= |events| && Runs(s, Recast(events, game)[..k], s', window, roots)
    ensures !NoneEscaped(s', window, roots)
    decreases |events|
  {
    hide Copies, NoneEscaped, Apply;
    if q > window + 1 {
      CopyEscapes(s, q, game, window, roots);
      k, s' := 0, s;
    } else {
      var cast := Recast(events, game);
      EventCopies(s, cast[0], q, game, window, roots);
      var next := Apply(s, cast[0], window, roots);
      NowAfter(s, cast[0], window, roots);
      var k1;
      k1, s' := Overflows(next, events[1..], Backlog(q, events[0]), game, last, window, roots);
      k := k1 + 1;
      assert cast[..k][1..] == Recast(events[1..], game)[..k1];
    }
  }

  lemma NowAfter(s: State, e: Event, window: nat, roots: nat -> Root)
    requires Enabled(s, e)
    ensures Apply(s, e, window, roots).now == if e.Look? then e.now else s.now
  {
  }

  /** With these beats, whatever games are created, no game ever leaves the window while it can be challenged. */
  ghost predicate Safe(events: seq<Event>, window: nat, roots: nat -> Root) {
    forall events': seq<Event>, k: nat, s: State ::
      SameBeats(events, events') && k <= |events'| && Runs(State([], 0, {}), events'[..k], s, window, roots) ==>
        NoneEscaped(s, window, roots)
  }

  /**
   The exact condition: a sequence of creations and looks, accepted or not, is safe for every choice
   of games if and only if its backlog never exceeds the number of games the window holds.
   */
  lemma SafeIff(events: seq<Event>, last: nat, window: nat, roots: nat -> Root)
    requires Timed(events, 0, last)
    ensures Safe(events, window, roots) <==> Within(events, 0, window + 1)
  {
    hide Within, Runs, NoneEscaped, Timed;
    var init := State([], 0, {});
    if Within(events, 0, window + 1) {
      forall events': seq<Event>, k: nat, s: State
        | SameBeats(events, events') && k <= |events'| && Runs(init, events'[..k], s, window, roots)
        ensures NoneEscaped(s, window, roots)
      {
        WithinSame(events, events', 0, window + 1);
        WithinPrefix(events', k, 0, window + 1);
        NothingEscapes(init, events'[..k], s, 0, window, roots);
      }
    } else {
      var game := Game(Unchallenged, InProgress, last, None, 0, roots(0) + 1);
      var k, s := Overflows(init, events, 0, game, last, window, roots);
      assert SameBeats(events, Recast(events, game));
    }
  }

  /**
   In every run from the empty factory whose backlog fits the window, nothing escapes and only wrong
   claims are challenged.
   */
  lemma NothingEscapesEver(events: seq<Event>, s': State, window: nat, roots: nat -> Root)
    requires Runs(State([], 0, {}), events, s', window, roots) && Within(events, 0, window + 1)
    ensures NoneEscaped(s', window, roots)
    ensures MineWrong(s', roots)
  {
    NothingEscapes(State([], 0, {}), events, s', 0, window, roots);
    OnlyWrongChallenged(State([], 0, {}), events, s', window, roots);
  }

  /** Every look is accepted, with one between any two creations; `q` is 1 after a creation and 0 after a look. */
  ghost predicate Paced(events: seq<Event>, q: nat) {
    if events == [] then true
    else
      match events[0]
      case Create(_) => q == 0 && Paced(events[1..], 1)
      case Look(_, accepted, _) => accepted && Paced(events[1..], 0)
      case Move(_, _, _, _) => Paced(events[1..], q)
  }

  /** Games created more slowly than the looks come keep the backlog within one, which every window can hold. */
  lemma {:induction false} PacedWithin(events: seq<Event>, q: nat, window: nat)
    requires q <= 1 && Paced(events, q)
    ensures Within(events, q, window + 1)
    decreases |events|
  {
    if events != [] {
      PacedWithin(events[1..], Backlog(q, events[0]), window);
    }
  }

  /** A burst that starts from backlog q stays within the cap exactly when it fits on top of it. */
  lemma {:induction false} BurstIff(game: Game, n: nat, q: nat, cap: nat)
    ensures Within(seq(n, _ => Create(game)), q, cap) <==> q + n <= cap
    decreases n
  {
    if n > 0 {
      BurstIff(game, n - 1, q + 1, cap);
      assert seq(n, _ => Create(game))[1..] == seq(n - 1, _ => Create(game));
    }
  }

  lemma {:induction false} BurstTimed(game: Game, n: nat)
    ensures Timed(seq(n, _ => Create(game)), 0, 0)
    decreases n
  {
    if n > 0 {
      BurstTimed(game, n - 1);
      assert seq(n, _ => Create(game))[1..] == seq(n - 1, _ => Create(game));
    }
  }

  /** A burst of creations with no look in between is safe exactly when the window holds all of it. */
  lemma BurstSafeIff(game: Game, n: nat, window: nat, roots: nat -> Root)
    ensures Safe(seq(n, _ => Create(game)), window, roots) <==> n <= window + 1
  {
    hide Safe, Within, Timed;
    BurstTimed(game, n);
    SafeIff(seq(n, _ => Create(game)), 0, window, roots);
    BurstIff(game, n, 0, window + 1);
  }

  /** Games created more slowly than the looks come never escape, whatever the window and the moves. */
  lemma PacedNeverEscapes(events: seq<Event>, s': State, window: nat, roots: nat -> Root)
    requires Runs(State([], 0, {}), events, s', window, roots) && Paced(events, 0)
    ensures NoneEscaped(s', window, roots)
  {
    hide Runs, Within, Paced, NoneEscaped;
    PacedWithin(events, 0, window);
    NothingEscapesEver(events, s', window, roots);
  }
}
