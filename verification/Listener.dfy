/** The listener's accept loop: routing datagrams to live sessions, remembering closed ones, and
    creating new ones. */
module Listener {
  import opened Words
  import opened Wire
  import Engine

  /** How long a closed session is remembered, in milliseconds, and how many closed sessions are
      kept before expired ones are dropped. */
  const TTL: int := 60000
  const KEEP: int := 100

  datatype Key = Key(addr: int, conv: u32)

  /** One received datagram with its time, and what the environment does with it: whether the
      session it is sent to still listens, whether a new session can be made and fed, and whether
      the application still accepts. */
  datatype Turn = Turn(addr: int, data: seq<byte>, now: nat, alive: bool, made: bool, fed: bool, accepted: bool)

  datatype Ending = Open | Noticed(turn: nat, at: nat)

  /** A session's history: when it was created, what its channel was given, and when the loop
      noticed that it had closed. */
  datatype Session = Session(key: Key, born: nat, bornAt: nat, fed: seq<seq<byte>>, end: Ending)

  /** The two maps of the loop, with the history of all sessions; `sessions` maps to positions in
      that history. */
  datatype State = State(sessions: map<Key, nat>, closed: map<Key, nat>, log: seq<Session>, turn: nat, running: bool)

  const START := State(map[], map[], [], 0, true)

  /** Large enough for a header. */
  predicate Sound(t: Turn) { |t.data| >= Engine.OVERHEAD }

  function KeyOf(t: Turn): Key
    requires Sound(t)
  {
    Key(t.addr, Decode32(t.data, 0))
  }

  function Retained(closed: map<Key, nat>, now: nat): map<Key, nat> {
    map k | k in closed && now - closed[k] < TTL :: closed[k]
  }

  function Fed(log: seq<Session>, i: nat, data: seq<byte>): seq<Session> {
    if i < |log| then log[i := log[i].(fed := log[i].fed + [data])] else log
  }

  function Ended(log: seq<Session>, i: nat, turn: nat, at: nat): seq<Session> {
    if i < |log| then log[i := log[i].(end := Noticed(turn, at))] else log
  }

  /** No session for the key: a new one, unless the key was closed recently. */
  function Create(s: State, key: Key, t: Turn, cleanup: bool): State {
    if key in s.closed && t.now - s.closed[key] < TTL then s
    else
      var forgotten := s.closed - {key};
      var closed := if cleanup && |forgotten| > KEEP then Retained(forgotten, t.now) else forgotten;
      if !t.made || !t.fed then s.(closed := closed)
      else s.(sessions := s.sessions[key := |s.log|], closed := closed,
              log := s.log + [Session(key, s.turn, t.now, [t.data], Open)], running := t.accepted)
  }

  function Route(s: State, key: Key, t: Turn, cleanup: bool): State {
    if key in s.sessions then
      var i := s.sessions[key];
      if t.alive then s.(log := Fed(s.log, i, t.data))
      else s.(sessions := s.sessions - {key}, closed := s.closed[key := t.now], log := Ended(s.log, i, s.turn, t.now))
    else Create(s, key, t, cleanup)
  }

  /** One turn of the loop.  Without `cleanup`, expired entries are never dropped in bulk. */
  function Step(s: State, t: Turn, cleanup: bool): State {
    if !s.running then s
    else
      var s1 := if Sound(t) then Route(s, KeyOf(t), t, cleanup) else s;
      s1.(turn := s.turn + 1)
  }

  function Run(ts: seq<Turn>, cleanup: bool): State {
    if ts == [] then START else Step(Run(ts[..|ts| - 1], cleanup), ts[|ts| - 1], cleanup)
  }

  // ---- What every turn keeps ----------------------------------------------------------------

  /** A key is live in at most one session, the one it maps to, and never live and closed at once. */
  ghost predicate Tidy(s: State) {
    && s.sessions.Keys !! s.closed.Keys
    && (forall k :: k in s.sessions ==>
          s.sessions[k] < |s.log| && s.log[s.sessions[k]].key == k && s.log[s.sessions[k]].end == Open)
    && (forall i :: 0 <= i < |s.log| && s.log[i].end == Open ==>
          s.log[i].key in s.sessions && s.sessions[s.log[i].key] == i)
  }

  lemma {:induction false} CreateTidy(s: State, key: Key, t: Turn, cleanup: bool)
    requires Tidy(s) && key !in s.sessions
    ensures Tidy(Create(s, key, t, cleanup))
  {
  }

  lemma {:induction false} RouteTidy(s: State, key: Key, t: Turn, cleanup: bool)
    requires Tidy(s)
    ensures Tidy(Route(s, key, t, cleanup))
  {
    if key !in s.sessions { CreateTidy(s, key, t, cleanup); }
  }

  /** In every run, a key is never in both maps and has at most one live session. */
  lemma {:induction false} AlwaysTidy(ts: seq<Turn>, cleanup: bool)
    ensures Tidy(Run(ts, cleanup))
  {
    if ts != [] {
      AlwaysTidy(ts[..|ts| - 1], cleanup);
      var t := ts[|ts| - 1];
      if Sound(t) { RouteTidy(Run(ts[..|ts| - 1], cleanup), KeyOf(t), t, cleanup); }
    }
  }

  // ---- When a session begins ------------------------------------------------------------------

  /** The key's closure was noticed less than one TTL ago, according to the map of closed sessions. */
  predicate Barred(closed: map<Key, nat>, key: Key, now: nat) { key in closed && now - closed[key] < TTL }

  /** A sound datagram whose key is not live begins a session exactly when one can be made and fed and
      the key is not barred; the session's channel then starts with that datagram.  The loop goes on
      unless the new session was not accepted. */
  ghost predicate BeginsOrNot(s: State, key: Key, t: Turn, r: State) {
    var begins := t.made && t.fed && !Barred(s.closed, key, t.now);
    && r.log == s.log + (if begins then [Session(key, s.turn, t.now, [t.data], Open)] else [])
    && r.sessions == (if begins then s.sessions[key := |s.log|] else s.sessions)
    && r.running == (begins ==> t.accepted)
    && (key in r.closed <==> Barred(s.closed, key, t.now))
  }

  /** Other keys' closures are forgotten only once they have expired, and with the cleanup no more than
      100 closures are kept besides the unexpired ones. */
  ghost predicate ClosedKept(s: State, key: Key, t: Turn, cleanup: bool, r: State) {
    && (forall k :: k in r.closed ==> k in s.closed && r.closed[k] == s.closed[k])
    && (forall k :: k in s.closed && k != key && t.now - s.closed[k] < TTL ==> k in r.closed)
    && (cleanup && !Barred(s.closed, key, t.now) ==>
          |r.closed| <= 100 || forall k :: k in r.closed ==> t.now - r.closed[k] < TTL)
  }

  lemma {:induction false} CreateBegins(s: State, key: Key, t: Turn, cleanup: bool)
    requires s.running && key !in s.sessions
    ensures BeginsOrNot(s, key, t, Create(s, key, t, cleanup))
    ensures ClosedKept(s, key, t, cleanup, Create(s, key, t, cleanup))
  {
  }

  /** What one turn of a running loop does with the datagram, in full. */
  lemma {:induction false} TurnDoes(s: State, t: Turn, cleanup: bool)
    requires s.running && Tidy(s)
    ensures var r := Step(s, t, cleanup);
            && r.turn == s.turn + 1
            && (!Sound(t) ==> r == s.(turn := s.turn + 1))
            && (Sound(t) && KeyOf(t) !in s.sessions ==>
                  BeginsOrNot(s, KeyOf(t), t, r) && ClosedKept(s, KeyOf(t), t, cleanup, r))
            && (Sound(t) && KeyOf(t) in s.sessions ==>
                  && |r.log| == |s.log| && r.running
                  && r.sessions == (if t.alive then s.sessions else s.sessions - {KeyOf(t)})
                  && r.closed == (if t.alive then s.closed else s.closed[KeyOf(t) := t.now]))
  {
    if Sound(t) && KeyOf(t) !in s.sessions { CreateBegins(s, KeyOf(t), t, cleanup); }
  }

  // ---- What a session's channel gets ----------------------------------------------------------

  /** The datagrams of a key among some turns, in order. */
  function Of(ts: seq<Turn>, key: Key): seq<seq<byte>> {
    if ts == [] then []
    else
      var t := ts[|ts| - 1];
      Of(ts[..|ts| - 1], key) + if Sound(t) && KeyOf(t) == key then [t.data] else []
  }

  /** The session was given the datagrams of its key from its creation on, up to the turn at which
      its closure was noticed, that one excluded. */
  ghost predicate Exact(ts: seq<Turn>, turn: nat, x: Session) {
    && x.born < turn <= |ts|
    && match x.end
       case Open => x.fed == Of(ts[x.born..turn], x.key)
       case Noticed(e, at) =>
         && x.born < e < turn && x.fed == Of(ts[x.born..e], x.key)
         && Sound(ts[e]) && KeyOf(ts[e]) == x.key && !ts[e].alive && at == ts[e].now
  }

  lemma {:induction false} OfNext(ts: seq<Turn>, i: nat, j: nat, key: Key)
    requires i <= j < |ts|
    ensures Of(ts[i..j + 1], key) ==
            Of(ts[i..j], key) + if Sound(ts[j]) && KeyOf(ts[j]) == key then [ts[j].data] else []
  {
    assert ts[i..j + 1][..j - i] == ts[i..j];
  }

  /** What one turn does to a session that already exists. */
  lemma {:induction false} KeptSession(s: State, t: Turn, cleanup: bool, i: nat)
    requires Tidy(s) && s.running && i < |s.log|
    ensures var r := Step(s, t, cleanup); var x := s.log[i];
            && i < |r.log|
            && r.log[i] == if x.end.Open? && Sound(t) && KeyOf(t) == x.key
                           then (if t.alive then x.(fed := x.fed + [t.data]) else x.(end := Noticed(s.turn, t.now)))
                           else x
  {
  }

  lemma {:induction false} NewSession(s: State, t: Turn, cleanup: bool, i: nat)
    requires |s.log| <= i < |Step(s, t, cleanup).log|
    ensures Sound(t) && Step(s, t, cleanup).log[i] == Session(KeyOf(t), s.turn, t.now, [t.data], Open)
  {
  }

  lemma {:induction false} StepExact(s: State, ts: seq<Turn>, cleanup: bool, i: nat)
    requires Tidy(s) && s.turn < |ts| && s.running
    requires forall j :: 0 <= j < |s.log| ==> Exact(ts, s.turn, s.log[j])
    requires i < |Step(s, ts[s.turn], cleanup).log|
    ensures Exact(ts, s.turn + 1, Step(s, ts[s.turn], cleanup).log[i])
  {
    var n := s.turn;
    if i < |s.log| {
      KeptSession(s, ts[n], cleanup, i);
      OfNext(ts, s.log[i].born, n, s.log[i].key);
    } else {
      NewSession(s, ts[n], cleanup, i);
      OfNext(ts, n, n, KeyOf(ts[n]));
      assert ts[n..n] == [];
    }
  }

  lemma {:induction false} ExactMore(ts: seq<Turn>, us: seq<Turn>, turn: nat, x: Session)
    requires Exact(ts, turn, x)
    ensures Exact(ts + us, turn, x)
  {
    assert (ts + us)[x.born..turn] == ts[x.born..turn];
    if x.end.Noticed? { assert (ts + us)[x.born..x.end.turn] == ts[x.born..x.end.turn]; }
  }

  /** In every run, each channel gets exactly the in-order datagrams of its key, from creation until
      closure is noticed. */
  lemma {:induction false} ChannelsExact(ts: seq<Turn>, cleanup: bool)
    ensures var s := Run(ts, cleanup);
            && (s.running ==> s.turn == |ts|) && s.turn <= |ts|
            && forall i :: 0 <= i < |s.log| ==> Exact(ts, s.turn, s.log[i])
  {
    if ts != [] {
      var n := |ts| - 1;
      var s := Run(ts[..n], cleanup);
      ChannelsExact(ts[..n], cleanup);
      AlwaysTidy(ts[..n], cleanup);
      assert ts == ts[..n] + [ts[n]];
      forall i | 0 <= i < |s.log| ensures Exact(ts, s.turn, s.log[i]) {
        ExactMore(ts[..n], [ts[n]], s.turn, s.log[i]);
      }
      if s.running {
        forall i | 0 <= i < |Run(ts, cleanup).log| ensures Exact(ts, s.turn + 1, Run(ts, cleanup).log[i]) {
          StepExact(s, ts, cleanup, i);
        }
      }
    }
  }

  // ---- Re-creation ------------------------------------------------------------------------

  /** The clock never runs backwards. */
  ghost predicate Monotone(ts: seq<Turn>) {
    forall i, j :: 0 <= i < j < |ts| ==> ts[i].now <= ts[j].now
  }

  /** Every closure noticed is remembered until it expires, and sessions of one key are at least one
      TTL apart. */
  ghost predicate Spaced(s: State, now: nat) {
    && (forall i :: 0 <= i < |s.log| && s.log[i].end.Noticed? ==>
          s.log[i].end.at <= now
          && ((s.log[i].key in s.closed && s.closed[s.log[i].key] >= s.log[i].end.at) || now - s.log[i].end.at >= TTL))
    && (forall i, j :: 0 <= i < j < |s.log| && s.log[i].key == s.log[j].key ==>
          s.log[i].end.Noticed? && s.log[j].bornAt - s.log[i].end.at >= TTL)
    && (forall k :: k in s.closed ==> s.closed[k] <= now)
  }

  lemma {:induction false} CreateSpaced(s: State, key: Key, t: Turn, cleanup: bool)
    requires Tidy(s) && Spaced(s, t.now) && key !in s.sessions
    ensures Spaced(Create(s, key, t, cleanup), t.now)
  {
    if !(key in s.closed && t.now - s.closed[key] < TTL) {
      var closed := Create(s, key, t, cleanup).closed;
      DropSpaced(s, key, t.now, closed);
      var s1 := s.(closed := closed);
      if t.made && t.fed {
        BornSpaced(s1, key, t);
        var s2 := s1.(log := s.log + [Session(key, s.turn, t.now, [t.data], Open)]);
        SameSpaced(s2, Create(s, key, t, cleanup), t.now);
      } else {
        SameSpaced(s1, Create(s, key, t, cleanup), t.now);
      }
    }
  }

  lemma {:induction false} SameSpaced(s: State, r: State, now: nat)
    requires Spaced(s, now) && r.log == s.log && r.closed == s.closed
    ensures Spaced(r, now)
  {
  }

  /** Forgetting a key's closure, and others that have expired. */
  lemma {:induction false} DropSpaced(s: State, key: Key, now: nat, closed: map<Key, nat>)
    requires Spaced(s, now) && (key in s.closed ==> now - s.closed[key] >= TTL)
    requires closed == s.closed - {key} || closed == Retained(s.closed - {key}, now)
    ensures Spaced(s.(closed := closed), now)
    ensures forall i :: 0 <= i < |s.log| && s.log[i].key == key && s.log[i].end.Noticed? ==>
              now - s.log[i].end.at >= TTL
  {
  }

  lemma {:induction false} BornSpaced(s: State, key: Key, t: Turn)
    requires Spaced(s, t.now)
    requires forall i :: 0 <= i < |s.log| && s.log[i].key == key ==>
               s.log[i].end.Noticed? && t.now - s.log[i].end.at >= TTL
    ensures Spaced(s.(log := s.log + [Session(key, s.turn, t.now, [t.data], Open)]), t.now)
  {
  }

  lemma {:induction false} RouteSpaced(s: State, key: Key, t: Turn, cleanup: bool)
    requires Tidy(s) && Spaced(s, t.now)
    ensures Spaced(Route(s, key, t, cleanup), t.now)
  {
    if key !in s.sessions { CreateSpaced(s, key, t, cleanup); }
  }

  /** A key is given a new session only one TTL or more after the closure of its previous one was
      noticed. */
  lemma {:induction false} RecreatedLate(ts: seq<Turn>, cleanup: bool, now: nat)
    requires Monotone(ts) && forall t :: t in ts ==> t.now <= now
    ensures Spaced(Run(ts, cleanup), now)
  {
    if ts != [] {
      var n := |ts| - 1;
      var t := ts[n];
      RecreatedLate(ts[..n], cleanup, t.now);
      AlwaysTidy(ts[..n], cleanup);
      StepSpaced(Run(ts[..n], cleanup), t, cleanup, now);
    }
  }

  lemma {:induction false} StepSpaced(s: State, t: Turn, cleanup: bool, now: nat)
    requires Tidy(s) && Spaced(s, t.now) && t.now <= now
    ensures Spaced(Step(s, t, cleanup), now)
  {
    if s.running && Sound(t) {
      RouteSpaced(s, KeyOf(t), t, cleanup);
      SpacedLater(Route(s, KeyOf(t), t, cleanup), t.now, now);
    } else {
      SpacedLater(s, t.now, now);
    }
  }

  lemma {:induction false} SpacedLater(s: State, now: nat, later: nat)
    requires Spaced(s, now) && now <= later
    ensures Spaced(s, later) && Spaced(s.(turn := s.turn + 1), later)
  {
  }

  // ---- Beginnings, by history alone ---------------------------------------------------------

  /** Every closure remembered is one that the loop noticed. */
  ghost predicate Recorded(s: State) {
    forall k :: k in s.closed ==> exists i :: 0 <= i < |s.log| && s.log[i].key == k && At(s.log[i], s.closed[k])
  }

  predicate At(x: Session, at: nat) { x.end.Noticed? && x.end.at == at }

  lemma {:induction false} RouteRecorded(s: State, key: Key, t: Turn, cleanup: bool)
    requires Tidy(s) && Recorded(s)
    ensures Recorded(Route(s, key, t, cleanup))
  {
    var r := Route(s, key, t, cleanup);
    forall k | k in r.closed ensures exists i :: 0 <= i < |r.log| && r.log[i].key == k && At(r.log[i], r.closed[k]) {
      if k in s.closed && r.closed[k] == s.closed[k] {
        var i :| 0 <= i < |s.log| && s.log[i].key == k && At(s.log[i], s.closed[k]);
        assert r.log[i] == s.log[i];
      } else {
        assert r.log[s.sessions[key]].key == k && At(r.log[s.sessions[key]], r.closed[k]);
      }
    }
  }

  lemma {:induction false} AlwaysRecorded(ts: seq<Turn>, cleanup: bool)
    ensures Recorded(Run(ts, cleanup))
  {
    if ts != [] {
      var n := |ts| - 1;
      AlwaysRecorded(ts[..n], cleanup);
      AlwaysTidy(ts[..n], cleanup);
      if Sound(ts[n]) { RouteRecorded(Run(ts[..n], cleanup), KeyOf(ts[n]), ts[n], cleanup); }
    }
  }

  /** The key has a session whose closure has not been noticed. */
  ghost predicate LiveIn(log: seq<Session>, key: Key) {
    exists i :: 0 <= i < |log| && log[i].key == key && log[i].end.Open?
  }

  /** A closure of the key was noticed less than one TTL ago. */
  ghost predicate ClosedIn(log: seq<Session>, key: Key, now: nat) {
    exists i :: 0 <= i < |log| && log[i].key == key && log[i].end.Noticed? && now - log[i].end.at < 60000
  }

  /** The two maps say the same as the history. */
  lemma {:induction false} MapsAreHistory(s: State, key: Key, now: nat)
    requires Tidy(s) && Recorded(s) && Spaced(s, now)
    ensures key in s.sessions <==> LiveIn(s.log, key)
    ensures Barred(s.closed, key, now) <==> ClosedIn(s.log, key, now)
  {
    if Barred(s.closed, key, now) {
      var i :| 0 <= i < |s.log| && s.log[i].key == key && At(s.log[i], s.closed[key]);
    }
  }

  /** In every run on a clock that never runs backwards: a sound datagram of a key without a live session
      begins one, with that datagram first in its channel, exactly when it can be made and fed and no
      closure of the key was noticed within one TTL.  Every other datagram begins none. */
  lemma {:induction false} BeginsIff(ts: seq<Turn>, cleanup: bool, n: nat)
    requires Monotone(ts) && n < |ts| && Run(ts[..n], cleanup).running
    ensures var log := Run(ts[..n], cleanup).log; var r := Run(ts[..n + 1], cleanup); var t := ts[n];
            var begins := Sound(t) && !LiveIn(log, KeyOf(t)) && t.made && t.fed && !ClosedIn(log, KeyOf(t), t.now);
            && |r.log| == |log| + (if begins then 1 else 0)
            && (begins ==> r.log == log + [Session(KeyOf(t), n, t.now, [t.data], Open)])
            && r.running == (begins ==> t.accepted)
  {
    var s := Run(ts[..n], cleanup);
    var t := ts[n];
    assert ts[..n + 1][..n] == ts[..n];
    AlwaysTidy(ts[..n], cleanup);
    AlwaysRecorded(ts[..n], cleanup);
    ChannelsExact(ts[..n], cleanup);
    RecreatedLate(ts[..n], cleanup, t.now);
    TurnDoes(s, t, cleanup);
    if Sound(t) { MapsAreHistory(s, KeyOf(t), t.now); }
  }

  // ---- The bulk cleanup -------------------------------------------------------------------

  /** The same sessions and history; the closed maps differ in expired entries only. */
  ghost predicate Alike(s: State, r: State, now: nat) {
    && s == r.(closed := s.closed)
    && (forall k :: k in s.closed ==> k in r.closed && s.closed[k] == r.closed[k])
    && (forall k :: k in r.closed && k !in s.closed ==> now - r.closed[k] >= TTL)
  }

  lemma {:induction false} CreateAlike(s: State, r: State, key: Key, t: Turn)
    requires Alike(s, r, t.now)
    ensures Alike(Create(s, key, t, true), Create(r, key, t, false), t.now)
  {
  }

  lemma {:induction false} RouteAlike(s: State, r: State, key: Key, t: Turn)
    requires Alike(s, r, t.now)
    ensures Alike(Route(s, key, t, true), Route(r, key, t, false), t.now)
  {
    if key !in s.sessions { CreateAlike(s, r, key, t); }
  }

  /** The cleanup is invisible: without it, every run has the same sessions with the same histories. */
  lemma {:induction false} CleanupInvisible(ts: seq<Turn>, now: nat)
    requires Monotone(ts) && forall t :: t in ts ==> t.now <= now
    ensures Alike(Run(ts, true), Run(ts, false), now)
  {
    if ts != [] {
      var n := |ts| - 1;
      var t := ts[n];
      CleanupInvisible(ts[..n], t.now);
      if Sound(t) { RouteAlike(Run(ts[..n], true), Run(ts[..n], false), KeyOf(t), t); }
    }
  }

  // ---- The loop ---------------------------------------------------------------------------

  /** The accept loop over its two maps.  `log` stands for the channels and what went into them. */
  class Acceptor {
    var sessions: map<Key, nat>
    var closed: map<Key, nat>
    var log: seq<Session>
    var turn: nat
    var running: bool

    function Abs(): State
      reads this
    {
      State(sessions, closed, log, turn, running)
    }

    constructor ()
      ensures Abs() == START
    {
      sessions, closed, log, turn, running := map[], map[], [], 0, true;
    }

    /** Sends to a session's channel; false when the session has gone. */
    method Send(i: nat, t: Turn) returns (ok: bool)
      modifies this`log
      ensures ok == t.alive && log == if ok then Fed(old(log), i, t.data) else old(log)
    {
      ok := t.alive;
      if ok && i < |log| {
        log := log[i := log[i].(fed := log[i].fed + [t.data])];
      }
    }

    /** Forgets a session whose receiver is gone, and remembers that it closed. */
    method Drop(key: Key, now: nat)
      requires key in sessions
      modifies this`sessions, this`closed, this`log
      ensures sessions == old(sessions) - {key} && closed == old(closed)[key := now]
      ensures log == Ended(old(log), old(sessions)[key], turn, now)
    {
      var i := sessions[key];
      sessions := sessions - {key};
      closed := closed[key := now];
      if i < |log| {
        log := log[i := log[i].(end := Noticed(turn, now))];
      }
    }

    /** A datagram of a key without a session: when it begins one. */
    method Admit(key: Key, t: Turn)
      requires running && key !in sessions
      modifies this`sessions, this`closed, this`log, this`running
      ensures Abs() == Create(old(Abs()), key, t, true) && BeginsOrNot(old(Abs()), key, t, Abs())
    {
      CreateBegins(Abs(), key, t, true);
      TryCreate(key, t);
    }

    method TryCreate(key: Key, t: Turn)
      modifies this`sessions, this`closed, this`log, this`running
      ensures Abs() == Create(old(Abs()), key, t, true)
    {
      if key in closed {
        if t.now - closed[key] < TTL {
          return;
        }
      }
      closed := closed - {key};
      if |closed| > KEEP {
        closed := map k | k in closed && t.now - closed[k] < TTL :: closed[k];
      }
      if t.made && t.fed {
        sessions := sessions[key := |log|];
        log := log + [Session(key, turn, t.now, [t.data], Open)];
        running := t.accepted;
      }
    }

    /** One turn. */
    method Handle(t: Turn)
      requires running
      modifies this
      ensures Abs() == Step(old(Abs()), t, true)
    {
      if |t.data| >= Engine.OVERHEAD {
        var key := Key(t.addr, Decode32(t.data, 0));
        if key in sessions {
          var ok := Send(sessions[key], t);
          if !ok {
            Drop(key, t.now);
          }
        } else {
          Admit(key, t);
        }
      }
      turn := turn + 1;
    }

    /** `accept_loop`, on the datagrams received. */
    method AcceptLoop(ts: seq<Turn>)
      requires Abs() == START
      modifies this
      ensures Abs() == Run(ts, true)
    {
      var i := 0;
      while i < |ts| && running
        invariant 0 <= i <= |ts| && Abs() == Run(ts[..i], true)
      {
        assert ts[..i + 1][..i] == ts[..i];
        Handle(ts[i]);
        i := i + 1;
      }
      Stopped(ts, i);
      assert ts[..|ts|] == ts;
    }
  }

  /** Once the loop has ended, nothing changes. */
  lemma {:induction false} Stopped(ts: seq<Turn>, i: nat)
    requires i <= |ts| && (i == |ts| || !Run(ts[..i], true).running)
    ensures Run(ts, true) == Run(ts[..i], true)
  {
    if i < |ts| {
      assert ts[..|ts| - 1][..i] == ts[..i];
      Stopped(ts[..|ts| - 1], i);
    } else {
      assert ts[..i] == ts;
    }
  }
}
