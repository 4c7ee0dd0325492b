/** AddScore as one call over the in-memory event repository and leaderboard. */
module EventService {
  import opened EventScore
  import Keys
  import Ranking
  import LB = Leaderboard

  datatype ScoreRow = ScoreRow(eventId: string, playerId: string, points: int)

  datatype Faults = Faults(getEvent: bool, addScore: bool, getScore: bool, incrBy: bool)

  class EventRepo {
    var events: map<string, Event>
    var scores: map<string, ScoreRow>

    constructor ()
      ensures events == map[] && scores == map[]
    {
      events, scores := map[], map[];
    }

    function Points(eventId: string, playerId: string): int
      reads this
    {
      var k := Keys.Joined(eventId, playerId);
      if k in scores then scores[k].points else 0
    }

    /** Registers an event; a duplicate id is refused and changes nothing. */
    method CreateEvent(id: string, e: Event) returns (ok: bool)
      modifies this
      ensures ok <==> id !in old(events)
      ensures events == if ok then old(events)[id := e] else old(events)
      ensures scores == old(scores)
    {
      if id in events {
        return false;
      }
      events := events[id := e];
      return true;
    }

    /** Adds to one row. Rows of other slash-free events keep their points, whatever the player ids. */
    method AddScore(eventId: string, playerId: string, delta: int)
      modifies this
      ensures events == old(events)
      ensures Points(eventId, playerId) == LB.Int64(old(Points(eventId, playerId)) + delta)
      ensures var k := eventId + "/" + playerId;
        && k in scores && scores == old(scores)[k := scores[k]]
        && scores[k] == if k in old(scores) then old(scores)[k].(points := LB.Int64(old(scores)[k].points + delta))
                        else ScoreRow(eventId, playerId, LB.Int64(delta))
      ensures forall e, p | (e, p) != (eventId, playerId) && '/' !in e && '/' !in eventId ::
        Points(e, p) == old(Points(e, p))
    {
      var k := Keys.Joined(eventId, playerId);
      if k in scores {
        scores := scores[k := scores[k].(points := LB.Int64(scores[k].points + delta))];
      } else {
        scores := scores[k := ScoreRow(eventId, playerId, LB.Int64(delta))];
      }
      forall e, p | (e, p) != (eventId, playerId) && '/' !in e && '/' !in eventId
        ensures Points(e, p) == old(Points(e, p))
      {
        Keys.SeparatorFreeKeysArePairs('/', e, p, eventId, playerId);
      }
    }

    method GetScore(eventId: string, playerId: string) returns (points: int)
      ensures points == Points(eventId, playerId)
      ensures var k := eventId + "/" + playerId;
        points == if k in scores then scores[k].points else 0
    {
      var k := Keys.Joined(eventId, playerId);
      points := if k in scores then scores[k].points else 0;
    }
  }

  class Service {
    const repo: EventRepo
    const leaderboard: LB.Leaderboard?

    constructor (repo: EventRepo, leaderboard: LB.Leaderboard?)
      ensures this.repo == repo && this.leaderboard == leaderboard
    {
      this.repo, this.leaderboard := repo, leaderboard;
    }

    /** Every guard lets the call through. */
    predicate Accepts(eventId: string, delta: int, now: int, faults: Faults)
      reads repo
    {
      && ValidDelta(delta) && !faults.getEvent
      && eventId in repo.events && StatusAt(repo.events[eventId], now) == Ongoing
    }

    /**
     One call: errors before the upsert change nothing; a read-back error leaves the points without the board; a failed
     increment still reports success. A success without faults moves points and board together.
    */
    method AddScore(eventId: string, playerId: string, delta: int, now: int, faults: Faults) returns (r: Outcome)
      modifies repo
      modifies if leaderboard != null then {leaderboard} else {}
      ensures r.InvalidDelta? <==> delta <= 0 || delta > 1_000_000
      ensures r.EventError? <==> ValidDelta(delta) && (faults.getEvent || eventId !in repo.events)
      ensures r.NotOngoing? <==>
        ValidDelta(delta) && !faults.getEvent && eventId in repo.events
          && StatusAt(repo.events[eventId], now) != Ongoing
      ensures ValidDelta(delta) && !faults.getEvent && eventId in repo.events ==>
        var e := repo.events[eventId];
        && (r.NotOngoing? <==> now < e.startAt || now > e.endAt)
        && (r.UpsertError? || r.ReadError? || r.Scored? <==> e.startAt <= now <= e.endAt)
      ensures r.UpsertError? <==> Accepts(eventId, delta, now, faults) && faults.addScore
      ensures r.ReadError? <==> Accepts(eventId, delta, now, faults) && !faults.addScore && faults.getScore
      ensures r.Scored? <==> Accepts(eventId, delta, now, faults) && !faults.addScore && !faults.getScore
      ensures repo.events == old(repo.events)
      ensures r.Scored? || r.ReadError?
        ==> repo.Points(eventId, playerId) == LB.Int64(old(repo.Points(eventId, playerId)) + delta)
      ensures r.Scored? || r.ReadError? ==>
        var k := eventId + "/" + playerId;
        k in repo.scores && repo.scores == old(repo.scores)[k := repo.scores[k]]
      ensures !(r.Scored? || r.ReadError?) ==> repo.scores == old(repo.scores)
      ensures r.Scored? ==> r.points == repo.Points(eventId, playerId)
      ensures leaderboard != null ==>
        if r.Scored? && !faults.incrBy
        then
          var scores := old(leaderboard.ScoresOf(eventId));
          leaderboard.scores == old(leaderboard.scores)[
            eventId := scores[playerId := LB.Int64(Ranking.ScoreOf(scores, playerId) + delta)]]
        else leaderboard.scores == old(leaderboard.scores)
    {
      if delta <= 0 || delta > MAX_SCORE_DELTA {
        return InvalidDelta;
      }
      if faults.getEvent || eventId !in repo.events {
        return EventError;
      }
      if StatusAt(repo.events[eventId], now) != Ongoing {
        return NotOngoing;
      }
      if faults.addScore {
        return UpsertError;
      }
      repo.AddScore(eventId, playerId, delta);
      if faults.getScore {
        return ReadError;
      }
      var points := repo.GetScore(eventId, playerId);
      if leaderboard != null && !faults.incrBy {
        var total := leaderboard.IncrBy(eventId, playerId, delta);
      }
      return Scored(points);
    }
  }
}
