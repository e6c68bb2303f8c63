/**
 One hole punching attempt (p2p.py, `attempt_traversal`) against the runtime state of its WireGuard peer.
 Every command may be refused, and the runner or the sleeper may raise at any point; other threads may purge
 the session once it can expire. Nothing else touches the peer.
 */
module TraversalAttempt {
  import opened Wrappers

  const PUNCH_ATTEMPTS: nat := 5

  datatype Peer = Peer(endpoint: Option<string>, keepalive: int)

  /** A `wg set` command, and whether it took effect. */
  datatype Command = Command(endpoint: string, keepalive: int, done: bool)

  datatype Reply = Done | Refused | Raised

  datatype Status = PREPARED | PUNCHING | SUCCEEDED | FAILED | ERROR

  datatype Session = Session(status: Status, attempts: nat, latestHandshake: int,
                             previous: Option<string>, previousKeepalive: int, baseline: int)

  /** How the attempt ended: without having started, with an exception before any command, or after punching. */
  datatype End = NotFound | NotPending | Escaped | Succeeded | Exhausted(restored: bool) | Failed

  /** The attempt got as far as its first command. */
  ghost predicate Punched(end: End) {
    end == Succeeded || end.Exhausted? || end == Failed
  }

  datatype Verdict = HandshakeSeen | NoHandshake | Exception

  /** What answers from outside: whether the session is gone at the start, what can be read of the peer, and, by their
      number, the `wg set` commands, the pings with their pauses, and the readings of the latest handshake behind them. */
  datatype Answers = Answers(gone: bool, peekRaises: bool, endpointRead: bool, keepaliveRead: bool, baseline: Option<int>,
                             sets: nat -> Reply, pings: nat -> bool, handshakes: nat -> Option<int>)

  /** The `k`-th ping and the reading behind it come through, and show a handshake since the start, or none. */
  ghost predicate Shows(a: Answers, k: nat, baseline: int, started: int, seen: bool) {
    && a.pings(k) && a.handshakes(k).Some?
    && (seen <==> a.handshakes(k).value > baseline && a.handshakes(k).value >= started)
  }

  /** The first handshake is seen at the `k`-th ping. */
  ghost predicate SeenAt(a: Answers, k: nat, baseline: int, started: int) {
    Shows(a, k, baseline, started, true) && forall j :: 1 <= j < k ==> Shows(a, j, baseline, started, false)
  }

  ghost predicate NeverSeen(a: Answers, baseline: int, started: int) {
    forall j :: 1 <= j <= 5 ==> Shows(a, j, baseline, started, false)
  }

  ghost predicate Seen(a: Answers, baseline: int, started: int) {
    exists k :: 1 <= k <= 5 && SeenAt(a, k, baseline, started)
  }

  /** What punching comes to when the first `k - 1` pings have shown no handshake. */
  lemma Verdicts(a: Answers, k: nat, baseline: int, started: int)
    requires k >= 1 && forall j :: 1 <= j < k ==> Shows(a, j, baseline, started, false)
    ensures k <= 5 && Shows(a, k, baseline, started, true) ==>
              SeenAt(a, k, baseline, started) && Seen(a, baseline, started) && !NeverSeen(a, baseline, started)
    ensures k <= 5 && !(a.pings(k) && a.handshakes(k).Some?) ==> !Seen(a, baseline, started) && !NeverSeen(a, baseline, started)
    ensures k == 6 ==> !Seen(a, baseline, started) && NeverSeen(a, baseline, started)
  {
    if i :| 1 <= i <= 5 && SeenAt(a, i, baseline, started) {
      assert Shows(a, i, baseline, started, true);
      assert i < k ==> Shows(a, i, baseline, started, false);
      assert i > k ==> Shows(a, k, baseline, started, false);
    }
    if NeverSeen(a, baseline, started) && k <= 5 {
      assert Shows(a, k, baseline, started, false);
    }
  }

  class Attempt {
    var slot: Option<Session>   // the session in the registry
    var peer: Peer              // the peer on wg0
    var commands: seq<Command>  // every `wg set` so far
    var pings: nat
    const mayExpire: bool       // whether the session can be purged meanwhile
    const answers: Answers

    constructor (session: Session, peer: Peer, mayExpire: bool, answers: Answers)
      ensures slot == Some(session) && this.peer == peer && commands == [] && pings == 0
      ensures this.mayExpire == mayExpire && this.answers == answers
    {
      slot, this.peer, commands, pings, this.mayExpire, this.answers := Some(session), peer, [], 0, mayExpire, answers;
    }

    /** The peer is in the state of the last command that took effect. */
    ghost predicate LastSet(endpoint: string, keepalive: int)
      reads this
    {
      && commands != []
      && var last := commands[|commands| - 1];
         last.endpoint == endpoint && last.keepalive == keepalive && (last.done ==> peer == Peer(Some(endpoint), keepalive))
    }

    method SetPeerEndpoint(endpoint: string, keepalive: int) returns (r: Reply)
      modifies this`peer, this`commands
      ensures r == answers.sets(|old(commands)|)
      ensures commands == old(commands) + [Command(endpoint, keepalive, r == Done)]
      ensures peer == if r == Done then Peer(Some(endpoint), keepalive) else old(peer)
    {
      r := answers.sets(|commands|);
      if r == Done {
        peer := Peer(Some(endpoint), keepalive);
      }
      commands := commands + [Command(endpoint, keepalive, r == Done)];
    }

    /** `wg show`: what cannot be read reads as no endpoint and no keepalive. */
    method ReadPeer() returns (endpoint: Option<string>, keepalive: int)
      ensures endpoint == (if answers.endpointRead then peer.endpoint else None)
      ensures keepalive == (if answers.keepaliveRead then peer.keepalive else 0)
    {
      endpoint := if answers.endpointRead then peer.endpoint else None;
      keepalive := if answers.keepaliveRead then peer.keepalive else 0;
    }

    method UpdateSession(s: Session)
      modifies this`slot
      ensures slot == None || (old(slot).Some? && slot == Some(s))
      ensures !mayExpire && old(slot).Some? ==> slot == Some(s)
    {
      var purged: bool := *;
      if mayExpire && purged {
        slot := None;
      }
      if slot.Some? {
        slot := Some(s);
      }
    }

    /** Point the peer at the candidate and punch until a fresh handshake is seen. */
    method Punch(session: Session, candidate: string, baseline: int, started: int)
      returns (v: Verdict, latest: int, punched: nat)
      requires pings == 0 && commands == []
      modifies this
      ensures punched <= 5 && pings == punched && (v == NoHandshake ==> punched == 5)
      ensures v == HandshakeSeen <==>
                answers.sets(0) == Done && answers.sets(1) == Done && Seen(answers, baseline, started)
      ensures v == NoHandshake <==> answers.sets(0) == Done && NeverSeen(answers, baseline, started)
      ensures v == HandshakeSeen ==>
                && punched >= 1 && SeenAt(answers, punched, baseline, started) && Some(latest) == answers.handshakes(punched)
                && latest > baseline && latest >= started
                && commands != [] && commands[|commands| - 1] == Command(candidate, 25, true) && peer == Peer(Some(candidate), 25)
      ensures v == NoHandshake ==> commands == [Command(candidate, 5, true)] && peer == Peer(Some(candidate), 5)
      ensures |commands| <= 2 && forall c <- commands :: c.endpoint == candidate
      ensures commands != [] && !commands[0].done ==> v == Exception && |commands| == 1 && peer == old(peer)
      ensures !mayExpire && old(slot).Some? ==> slot.Some?
      ensures !mayExpire && old(slot).Some? && punched > 0 ==>
                slot.value.attempts == punched && slot.value.latestHandshake == latest && slot.value.status == session.status
      ensures punched == 0 ==> latest == session.latestHandshake
    {
      hide SeenAt, Seen, NeverSeen;
      latest, punched := session.latestHandshake, 0;
      var r := SetPeerEndpoint(candidate, 5);
      if r != Done {
        return Exception, latest, punched;
      }
      while punched < PUNCH_ATTEMPTS
        invariant punched <= PUNCH_ATTEMPTS && pings == punched
        invariant commands == [Command(candidate, 5, true)] && peer == Peer(Some(candidate), 5)
        invariant !mayExpire && old(slot).Some? ==> slot.Some?
        invariant !mayExpire && old(slot).Some? && punched > 0 ==>
                    slot.value.attempts == punched && slot.value.latestHandshake == latest && slot.value.status == session.status
        invariant forall j :: 1 <= j <= punched ==> Shows(answers, j, baseline, started, false)
      {
        punched := punched + 1;
        Verdicts(answers, punched, baseline, started);
        UpdateSession(session.(attempts := punched, latestHandshake := latest));
        pings := pings + 1;
        if !answers.pings(punched) {
          return Exception, latest, punched;
        }
        var reading := answers.handshakes(punched);
        if reading.None? {
          return Exception, latest, punched;
        }
        latest := reading.value;
        UpdateSession(session.(attempts := punched, latestHandshake := latest));
        if latest > (if baseline > started - 1 then baseline else started - 1) {
          assert Shows(answers, punched, baseline, started, true);
          r := SetPeerEndpoint(candidate, 25);
          v := if r == Done then HandshakeSeen else Exception;
          return;
        }
        assert Shows(answers, punched, baseline, started, false);
      }
      Verdicts(answers, 6, baseline, started);
      v := NoHandshake;
    }

    /** The answers decide the end of an attempt. Success leaves the candidate with keepalive 25 and a handshake above the
        baseline and not before the start. Any other end that had read a previous endpoint finishes with the command that
        restores it with its keepalive, and the peer is exactly as before if that command took effect. */
    method AttemptTraversal(candidate: string, started: int)
      returns (end: End, result: Option<Session>, previous: Option<string>, keepalive: int, baseline: int, latest: int)
      requires commands == [] && pings == 0
      modifies this
      ensures end == NotFound <==> old(slot).None? || (mayExpire && answers.gone)
      ensures end == NotFound ==> slot == None && result == None
      ensures end == NotPending <==> end != NotFound && old(slot).value.status in {SUCCEEDED, FAILED, ERROR}
      ensures end == NotPending ==> slot == old(slot) == result
      ensures end == Escaped <==>
                end != NotFound && old(slot).value.status in {PREPARED, PUNCHING} && (answers.peekRaises || answers.baseline.None?)
      ensures end == NotFound || end == NotPending || end == Escaped ==> commands == [] && peer == old(peer) && pings == 0
      ensures !(end == NotFound || end == NotPending || end == Escaped) ==>
                && Some(baseline) == answers.baseline
                && previous == (if answers.endpointRead then old(peer).endpoint else None)
                && keepalive == (if answers.keepaliveRead then old(peer).keepalive else 0)
                && (end == Succeeded <==> answers.sets(0) == Done && Seen(answers, baseline, started) && answers.sets(1) == Done)
                && (end == Exhausted(true) <==> answers.sets(0) == Done && NeverSeen(answers, baseline, started) && answers.sets(1) == Done)
                && (end == Exhausted(false) <==>
                      answers.sets(0) == Done && NeverSeen(answers, baseline, started) && answers.sets(1) == Refused)
                && Punched(end)
      ensures end == Succeeded ==> peer == Peer(Some(candidate), 25) && latest > baseline && latest >= started
      ensures (end.Exhausted? || end == Failed) && previous.Some? ==> LastSet(previous.value, keepalive)
      ensures end.Exhausted? && previous.None? ==> LastSet(candidate, 0)
      ensures end.Exhausted? ==> commands != [] && (end.restored <==> commands[|commands| - 1].done)
      ensures pings <= 5 && (end.Exhausted? ==> pings == 5)
      ensures Punched(end) && slot.None? ==> result == old(slot)
      ensures !mayExpire && Punched(end) ==>
                && slot == result && slot.Some?
                && slot.value.status == (if end == Succeeded then SUCCEEDED else if end == Failed then ERROR else FAILED)
                && slot.value.previous == previous && slot.value.previousKeepalive == keepalive
                && slot.value.baseline == baseline && slot.value.latestHandshake == latest
                && slot.value.attempts == if pings > 0 then pings else old(slot).value.attempts
    {
      hide SeenAt, Seen, NeverSeen, Shows, LastSet;
      previous, keepalive, baseline, latest := None, 0, 0, 0;
      if mayExpire && answers.gone {
        slot := None;
      }
      if slot.None? {
        return NotFound, None, previous, keepalive, baseline, latest;
      }
      var original := slot;
      var session := slot.value;
      if session.status != PREPARED && session.status != PUNCHING {
        return NotPending, slot, previous, keepalive, baseline, latest;
      }
      if answers.peekRaises {
        return Escaped, None, previous, keepalive, baseline, latest;
      }
      previous, keepalive := ReadPeer();
      if answers.baseline.None? {
        return Escaped, None, previous, keepalive, baseline, latest;
      }
      baseline := answers.baseline.value;
      session := session.(status := PUNCHING, previous := previous, previousKeepalive := keepalive, baseline := baseline);
      UpdateSession(session);

      var v, punched;
      v, latest, punched := Punch(session, candidate, baseline, started);
      session := session.(attempts := if punched > 0 then punched else session.attempts, latestHandshake := latest);
      if v == HandshakeSeen {
        UpdateSession(session.(status := SUCCEEDED));
        return Succeeded, if slot.Some? then slot else original, previous, keepalive, baseline, latest;
      }
      end := Finish(session, v == NoHandshake, candidate, previous, keepalive);
      result := if slot.Some? then slot else original;
    }

    /** Put the previous endpoint back; without one, leave the candidate but stop its keepalive. */
    method Finish(session: Session, exhausted: bool, candidate: string, previous: Option<string>, keepalive: int)
      returns (end: End)
      modifies this
      ensures var reply := answers.sets(|old(commands)|);
              end == if exhausted && reply != Raised then Exhausted(reply == Done) else Failed
      ensures previous.Some? ==> LastSet(previous.value, keepalive)
      ensures end.Exhausted? && previous.None? ==> LastSet(candidate, 0)
      ensures end.Exhausted? ==> commands != [] && (end.restored <==> commands[|commands| - 1].done)
      ensures pings == old(pings)
      ensures slot == None || (old(slot).Some? && slot == Some(session.(status := if end == Failed then ERROR else FAILED)))
      ensures !mayExpire && old(slot).Some? ==> slot.Some?
    {
      if exhausted {
        var r;
        if previous.Some? {
          r := SetPeerEndpoint(previous.value, keepalive);
        } else {
          r := SetPeerEndpoint(candidate, 0);
        }
        if r != Raised {
          UpdateSession(session.(status := FAILED));
          return Exhausted(r == Done);
        }
      }
      if previous.Some? {
        var r := SetPeerEndpoint(previous.value, keepalive);
      }
      UpdateSession(session.(status := ERROR));
      end := Failed;
    }
  }
}
