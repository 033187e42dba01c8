/**
  Ratings after an arena match (UpdateELOAfterMatch in internal/ssh/arena.go) and
  the table they live in.  Any read or write of a record may fail.
*/
module ArenaElo {
  import opened EloRating

  datatype Record = Record(rating: int, wins: int, losses: int, draws: int)

  const UNRATED := Record(1200, 0, 0, 0)

  datatype Participant = Participant(user: nat, score: int)

  /** Whether reading and writing one participant's record succeed. */
  datatype Access = Access(read: bool, write: bool)

  function Lookup(elo: map<nat, Record>, user: nat): Record {
    if user in elo then elo[user] else UNRATED
  }

  class EloTable {
    var elo: map<nat, Record>

    constructor ()
      ensures elo == map[]
    {
      elo := map[];
    }

    method GetArenaELO(user: nat) returns (record: Record)
      ensures record == Lookup(elo, user)
    {
      record := if user in elo then elo[user] else UNRATED;
    }

    method UpdateArenaELO(user: nat, record: Record)
      modifies this
      ensures elo == old(elo)[user := record]
    {
      elo := elo[user := record];
    }
  }

  // ---- the participants of a match --------------------------------------

  predicate DistinctUsers(ps: seq<Participant>) {
    forall i, j :: 0 <= i < j < |ps| ==> ps[i].user != ps[j].user
  }

  /** As the query returns them: highest score first, each user once. */
  predicate Ranked(ps: seq<Participant>) {
    DistinctUsers(ps) && forall i, j :: 0 <= i < j < |ps| ==> ps[i].score >= ps[j].score
  }

  predicate AllDraw(ps: seq<Participant>) {
    forall i :: 0 <= i < |ps| ==> ps[i].score == ps[0].score
  }

  // ---- what a match does ------------------------------------------------

  function AfterDraw(elo: map<nat, Record>, ps: seq<Participant>, io: seq<Access>): map<nat, Record>
    requires |ps| == |io|
    decreases |ps|
  {
    if ps == [] then elo
    else
      var r := Lookup(elo, ps[0].user);
      var next := if io[0].read && io[0].write then elo[ps[0].user := r.(draws := r.draws + 1)] else elo;
      AfterDraw(next, ps[1..], io[1..])
  }

  /** The winner, rated `rating` so far, against one more participant. */
  function AfterLoser(p: int -> real, elo: map<nat, Record>, q: Participant, a: Access,
                      top: int, rating: int): (map<nat, Record>, int)
    requires IsPower(p)
  {
    if q.score == top || !a.read then (elo, rating)
    else
      var r := Lookup(elo, q.user);
      var (newWinner, newLoser) := CalculateELO(p, rating, r.rating, 1.0);
      (if a.write then elo[q.user := r.(rating := newLoser, losses := r.losses + 1)] else elo, newWinner)
  }

  function AfterLosers(p: int -> real, elo: map<nat, Record>, ps: seq<Participant>, io: seq<Access>,
                       top: int, rating: int): (map<nat, Record>, int)
    requires IsPower(p) && |ps| == |io|
    decreases |ps|
  {
    if ps == [] then (elo, rating)
    else
      var (next, newRating) := AfterLoser(p, elo, ps[0], io[0], top, rating);
      AfterLosers(p, next, ps[1..], io[1..], top, newRating)
  }

  function AfterMatch(p: int -> real, elo: map<nat, Record>, ps: seq<Participant>, io: seq<Access>): map<nat, Record>
    requires IsPower(p) && |ps| == |io|
  {
    if |ps| < 2 then elo
    else if AllDraw(ps) then AfterDraw(elo, ps, io)
    else if !io[0].read then elo
    else
      var r := Lookup(elo, ps[0].user);
      var (after, rating) := AfterLosers(p, elo, ps[1..], io[1..], ps[0].score, r.rating);
      if io[0].write then after[ps[0].user := r.(rating := rating, wins := r.wins + 1)] else after
  }

  method UpdateELOAfterMatch(p: int -> real, t: EloTable, ps: seq<Participant>, io: seq<Access>)
    returns (ok: bool)
    requires IsPower(p) && |ps| == |io|
    modifies t
    ensures t.elo == AfterMatch(p, old(t.elo), ps, io)
    ensures ok <==> |ps| < 2 || (forall i :: 0 <= i < |ps| ==> ps[i].score == ps[0].score) || (io[0].read && io[0].write)
  {
    if |ps| < 2 {
      return true;
    }
    var allDraw := SameScores(ps);
    if allDraw {
      BumpDraws(t, ps, io);
      return true;
    }
    if !io[0].read {
      return false;
    }
    var winnerELO := t.GetArenaELO(ps[0].user);
    var rating := BeatLosers(p, t, ps[1..], io[1..], ps[0].score, winnerELO.rating);
    if !io[0].write {
      return false;
    }
    t.UpdateArenaELO(ps[0].user, winnerELO.(rating := rating, wins := winnerELO.wins + 1));
    return true;
  }

  method SameScores(ps: seq<Participant>) returns (allDraw: bool)
    requires |ps| >= 1
    ensures allDraw == AllDraw(ps)
  {
    var i := 1;
    while i < |ps|
      invariant 1 <= i <= |ps|
      invariant forall j :: 0 <= j < i ==> ps[j].score == ps[0].score
    {
      if ps[i].score != ps[0].score {
        return false;
      }
      i := i + 1;
    }
    return true;
  }

  method BumpDraws(t: EloTable, ps: seq<Participant>, io: seq<Access>)
    requires |ps| == |io|
    modifies t
    ensures t.elo == AfterDraw(old(t.elo), ps, io)
  {
    var i := 0;
    while i < |ps|
      invariant 0 <= i <= |ps|
      invariant AfterDraw(t.elo, ps[i..], io[i..]) == AfterDraw(old(t.elo), ps, io)
    {
      assert ps[i..][1..] == ps[i + 1..] && io[i..][1..] == io[i + 1..];
      if io[i].read {
        var r := t.GetArenaELO(ps[i].user);
        if io[i].write {
          t.UpdateArenaELO(ps[i].user, r.(draws := r.draws + 1));
        }
      }
      i := i + 1;
    }
  }

  method BeatLosers(p: int -> real, t: EloTable, ps: seq<Participant>, io: seq<Access>, top: int, rating: int)
    returns (currentWinnerRating: int)
    requires IsPower(p) && |ps| == |io|
    modifies t
    ensures (t.elo, currentWinnerRating) == AfterLosers(p, old(t.elo), ps, io, top, rating)
  {
    currentWinnerRating := rating;
    var i := 0;
    while i < |ps|
      invariant 0 <= i <= |ps|
      invariant AfterLosers(p, t.elo, ps[i..], io[i..], top, currentWinnerRating)
        == AfterLosers(p, old(t.elo), ps, io, top, rating)
    {
      assert ps[i..][1..] == ps[i + 1..] && io[i..][1..] == io[i + 1..];
      if ps[i].score != top && io[i].read {
        var r := t.GetArenaELO(ps[i].user);
        var (newWinnerRating, newLoserRating) := CalculateELO(p, currentWinnerRating, r.rating, 1.0);
        if io[i].write {
          t.UpdateArenaELO(ps[i].user, r.(rating := newLoserRating, losses := r.losses + 1));
        }
        currentWinnerRating := newWinnerRating;
      }
      i := i + 1;
    }
  }

  // ---- rating points are conserved --------------------------------------

  function Rating(elo: map<nat, Record>, user: nat): int {
    Lookup(elo, user).rating
  }

  predicate Distinct(roster: seq<nat>) {
    forall i, j :: 0 <= i < j < |roster| ==> roster[i] != roster[j]
  }

  /** The rating points held by a roster of users. */
  function Total(elo: map<nat, Record>, roster: seq<nat>): int {
    if roster == [] then 0 else Rating(elo, roster[0]) + Total(elo, roster[1..])
  }

  lemma {:induction false} TotalElsewhere(elo: map<nat, Record>, roster: seq<nat>, user: nat, r: Record)
    requires user !in roster
    ensures Total(elo[user := r], roster) == Total(elo, roster)
  {
    if roster != [] {
      TotalElsewhere(elo, roster[1..], user, r);
    }
  }

  lemma {:induction false} TotalUpdated(elo: map<nat, Record>, roster: seq<nat>, user: nat, r: Record)
    requires user in roster && Distinct(roster)
    ensures Total(elo[user := r], roster) == Total(elo, roster) - Rating(elo, user) + r.rating
  {
    if roster[0] == user {
      TotalElsewhere(elo, roster[1..], user, r);
    } else {
      TotalUpdated(elo, roster[1..], user, r);
    }
  }

  /** Every participant is on the roster. */
  predicate Covers(roster: seq<nat>, ps: seq<Participant>) {
    Distinct(roster) && forall i :: 0 <= i < |ps| ==> ps[i].user in roster
  }

  /** Points that losers kept because the write of their record failed. */
  function Kept(p: int -> real, elo: map<nat, Record>, ps: seq<Participant>, io: seq<Access>,
                top: int, rating: int): int
    requires IsPower(p) && |ps| == |io|
    decreases |ps|
  {
    if ps == [] then 0
    else
      var (next, newRating) := AfterLoser(p, elo, ps[0], io[0], top, rating);
      (if io[0].write then 0 else newRating - rating) + Kept(p, next, ps[1..], io[1..], top, newRating)
  }

  /** One loser: what the winner's running rating gains, the loser's record gives. */
  lemma LoserGives(p: int -> real, elo: map<nat, Record>, q: Participant, a: Access, top: int, rating: int,
                   roster: seq<nat>)
    requires IsPower(p) && Distinct(roster) && q.user in roster
    ensures var (next, newRating) := AfterLoser(p, elo, q, a, top, rating);
      && rating <= newRating <= rating + 32
      && Total(next, roster) == Total(elo, roster) - (if a.write then newRating - rating else 0)
  {
    if q.score != top && a.read {
      var r := Lookup(elo, q.user);
      WinTakes(p, rating, r.rating);
      var newLoser := CalculateELO(p, rating, r.rating, 1.0).1;
      TotalUpdated(elo, roster, q.user, r.(rating := newLoser, losses := r.losses + 1));
    }
  }

  lemma {:induction false} LosersGive(p: int -> real, elo: map<nat, Record>, ps: seq<Participant>, io: seq<Access>,
                                      top: int, rating: int, roster: seq<nat>)
    requires IsPower(p) && |ps| == |io| && Covers(roster, ps)
    ensures var (after, newRating) := AfterLosers(p, elo, ps, io, top, rating);
      Total(after, roster) + newRating == Total(elo, roster) + rating + Kept(p, elo, ps, io, top, rating)
    decreases |ps|
  {
    if ps != [] {
      LoserGives(p, elo, ps[0], io[0], top, rating, roster);
      var (next, newRating) := AfterLoser(p, elo, ps[0], io[0], top, rating);
      LosersGive(p, next, ps[1..], io[1..], top, newRating, roster);
    }
  }

  lemma {:induction false} OthersUntouched(p: int -> real, elo: map<nat, Record>, ps: seq<Participant>,
                                           io: seq<Access>, top: int, rating: int, user: nat)
    requires IsPower(p) && |ps| == |io|
    requires forall i :: 0 <= i < |ps| ==> ps[i].user != user
    ensures Lookup(AfterLosers(p, elo, ps, io, top, rating).0, user) == Lookup(elo, user)
    decreases |ps|
  {
    if ps != [] {
      assert ps[0].user != user;
      var (next, newRating) := AfterLoser(p, elo, ps[0], io[0], top, rating);
      OthersUntouched(p, next, ps[1..], io[1..], top, newRating, user);
    }
  }

  lemma {:induction false} DrawKeepsRatings(elo: map<nat, Record>, ps: seq<Participant>, io: seq<Access>, user: nat)
    requires |ps| == |io|
    ensures Rating(AfterDraw(elo, ps, io), user) == Rating(elo, user)
    decreases |ps|
  {
    if ps != [] {
      var r := Lookup(elo, ps[0].user);
      var next := if io[0].read && io[0].write then elo[ps[0].user := r.(draws := r.draws + 1)] else elo;
      DrawKeepsRatings(next, ps[1..], io[1..], user);
    }
  }

  lemma {:induction false} SameRatingsSameTotal(elo: map<nat, Record>, other: map<nat, Record>, roster: seq<nat>)
    requires forall i :: 0 <= i < |roster| ==> Rating(elo, roster[i]) == Rating(other, roster[i])
    ensures Total(elo, roster) == Total(other, roster)
  {
    if roster != [] {
      SameRatingsSameTotal(elo, other, roster[1..]);
    }
  }

  /** The match has a winner, whose record could be read. */
  predicate Decided(ps: seq<Participant>, io: seq<Access>)
    requires |ps| == |io|
  {
    |ps| >= 2 && !AllDraw(ps) && io[0].read
  }

  /** By how much a match changes the sum of all ratings: only the points whose
      one side was not written are created or lost. */
  function Drift(p: int -> real, elo: map<nat, Record>, ps: seq<Participant>, io: seq<Access>): int
    requires IsPower(p) && |ps| == |io|
  {
    if !Decided(ps, io) then 0
    else
      var rating := Rating(elo, ps[0].user);
      var gained := AfterLosers(p, elo, ps[1..], io[1..], ps[0].score, rating).1 - rating;
      Kept(p, elo, ps[1..], io[1..], ps[0].score, rating) - (if io[0].write then 0 else gained)
  }

  lemma MatchDrift(p: int -> real, elo: map<nat, Record>, ps: seq<Participant>, io: seq<Access>, roster: seq<nat>)
    requires IsPower(p) && |ps| == |io| && DistinctUsers(ps) && Covers(roster, ps)
    ensures Total(AfterMatch(p, elo, ps, io), roster) == Total(elo, roster) + Drift(p, elo, ps, io)
  {
    if |ps| >= 2 && AllDraw(ps) {
      forall user {
        DrawKeepsRatings(elo, ps, io, user);
      }
      SameRatingsSameTotal(AfterDraw(elo, ps, io), elo, roster);
    } else if Decided(ps, io) {
      var r := Lookup(elo, ps[0].user);
      var (after, rating) := AfterLosers(p, elo, ps[1..], io[1..], ps[0].score, r.rating);
      LosersGive(p, elo, ps[1..], io[1..], ps[0].score, r.rating, roster);
      OthersUntouched(p, elo, ps[1..], io[1..], ps[0].score, r.rating, ps[0].user);
      TotalUpdated(after, roster, ps[0].user, r.(rating := rating, wins := r.wins + 1));
    }
  }

  predicate AllSucceed(io: seq<Access>) {
    forall i :: 0 <= i < |io| ==> io[i].read && io[i].write
  }

  lemma {:induction false} NothingKept(p: int -> real, elo: map<nat, Record>, ps: seq<Participant>, io: seq<Access>,
                                       top: int, rating: int)
    requires IsPower(p) && |ps| == |io| && AllSucceed(io)
    ensures Kept(p, elo, ps, io, top, rating) == 0
    decreases |ps|
  {
    if ps != [] {
      assert io[0].write;
      var (next, newRating) := AfterLoser(p, elo, ps[0], io[0], top, rating);
      NothingKept(p, next, ps[1..], io[1..], top, newRating);
    }
  }

  /** With every read and write succeeding, a match conserves rating points exactly. */
  lemma MatchConserves(p: int -> real, elo: map<nat, Record>, ps: seq<Participant>, io: seq<Access>, roster: seq<nat>)
    requires IsPower(p) && |ps| == |io| && DistinctUsers(ps) && Covers(roster, ps) && AllSucceed(io)
    ensures Total(AfterMatch(p, elo, ps, io), roster) == Total(elo, roster)
  {
    MatchDrift(p, elo, ps, io, roster);
    if Decided(ps, io) {
      NothingKept(p, elo, ps[1..], io[1..], ps[0].score, Rating(elo, ps[0].user));
    }
  }

  // ---- runs of matches --------------------------------------------------

  datatype Match = Match(ps: seq<Participant>, io: seq<Access>)

  predicate Paired(ms: seq<Match>) {
    forall m :: m in ms ==> |m.ps| == |m.io|
  }

  function Run(p: int -> real, elo: map<nat, Record>, ms: seq<Match>): map<nat, Record>
    requires IsPower(p) && Paired(ms)
    decreases |ms|
  {
    assert ms != [] ==> ms[0] in ms;
    if ms == [] then elo else Run(p, AfterMatch(p, elo, ms[0].ps, ms[0].io), ms[1..])
  }

  /** Matches among users of the roster, with every read and write succeeding. */
  predicate Smooth(ms: seq<Match>, roster: seq<nat>) {
    && Paired(ms)
    && forall m :: m in ms ==> DistinctUsers(m.ps) && Covers(roster, m.ps) && AllSucceed(m.io)
  }

  lemma {:induction false} RunConserves(p: int -> real, elo: map<nat, Record>, ms: seq<Match>, roster: seq<nat>)
    requires IsPower(p) && Smooth(ms, roster)
    ensures Total(Run(p, elo, ms), roster) == Total(elo, roster)
    decreases |ms|
  {
    if ms != [] {
      assert ms[0] in ms;
      MatchConserves(p, elo, ms[0].ps, ms[0].io, roster);
      RunConserves(p, AfterMatch(p, elo, ms[0].ps, ms[0].io), ms[1..], roster);
    }
  }

  lemma {:induction false} TotalUnrated(roster: seq<nat>)
    ensures Total(map[], roster) == 1200 * |roster|
  {
    if roster != [] {
      TotalUnrated(roster[1..]);
    }
  }

  /** However many matches are played, the average rating of everyone who took
      part stays 1200. */
  lemma AverageStays1200(p: int -> real, ms: seq<Match>, roster: seq<nat>)
    requires IsPower(p) && Smooth(ms, roster)
    ensures Total(Run(p, map[], ms), roster) == 1200 * |roster|
  {
    RunConserves(p, map[], ms, roster);
    TotalUnrated(roster);
  }

  // ---- each record ------------------------------------------------------

  /** Each participant who scored less gives the winner what one win against the
      winner's rating so far is worth, and those who tied give nothing. */
  lemma {:induction false} LoserRecord(p: int -> real, elo: map<nat, Record>, ps: seq<Participant>, io: seq<Access>,
                                       top: int, rating: int, k: nat)
    requires IsPower(p) && |ps| == |io| && DistinctUsers(ps) && k < |ps|
    ensures var winner := AfterLosers(p, elo, ps[..k], io[..k], top, rating).1;
      var r := Lookup(elo, ps[k].user);
      Lookup(AfterLosers(p, elo, ps, io, top, rating).0, ps[k].user)
      == if ps[k].score == top || !io[k].read || !io[k].write then r
         else r.(rating := r.rating - Gain(p, winner - r.rating), losses := r.losses + 1)
    decreases |ps|
  {
    var (next, newRating) := AfterLoser(p, elo, ps[0], io[0], top, rating);
    if k == 0 {
      WinTakes(p, rating, Rating(elo, ps[0].user));
      OthersUntouched(p, next, ps[1..], io[1..], top, newRating, ps[0].user);
    } else {
      LoserRecord(p, next, ps[1..], io[1..], top, newRating, k - 1);
      assert ps[..k][1..] == ps[1..][..k - 1] && io[..k][1..] == io[1..][..k - 1];
    }
  }

  /** How many participants the winner takes points from. */
  function Beaten(ps: seq<Participant>, io: seq<Access>, top: int): nat
    requires |ps| == |io|
    decreases |ps|
  {
    if ps == [] then 0
    else (if ps[0].score != top && io[0].read then 1 else 0) + Beaten(ps[1..], io[1..], top)
  }

  lemma {:induction false} WinnerTakes(p: int -> real, elo: map<nat, Record>, ps: seq<Participant>, io: seq<Access>,
                                       top: int, rating: int)
    requires IsPower(p) && |ps| == |io|
    ensures rating <= AfterLosers(p, elo, ps, io, top, rating).1 <= rating + 32 * Beaten(ps, io, top)
    decreases |ps|
  {
    if ps != [] {
      WinTakes(p, rating, Rating(elo, ps[0].user));
      var (next, newRating) := AfterLoser(p, elo, ps[0], io[0], top, rating);
      WinnerTakes(p, next, ps[1..], io[1..], top, newRating);
    }
  }

  /** The first of the ranking, and nobody else, is credited with a win, and with
      0 to 32 points for each participant beaten. */
  lemma WinnerOutcome(p: int -> real, elo: map<nat, Record>, ps: seq<Participant>, io: seq<Access>)
    requires IsPower(p) && |ps| == |io| && Ranked(ps) && Decided(ps, io) && io[0].write
    ensures var r, s := Lookup(elo, ps[0].user), Lookup(AfterMatch(p, elo, ps, io), ps[0].user);
      && s == r.(rating := s.rating, wins := r.wins + 1)
      && r.rating <= s.rating <= r.rating + 32 * Beaten(ps[1..], io[1..], ps[0].score)
  {
    WinnerTakes(p, elo, ps[1..], io[1..], ps[0].score, Rating(elo, ps[0].user));
  }

  /** Of the others, those who scored strictly less lose 0 to 32 points and are
      charged with a loss; those who tied with the winner are left alone. */
  lemma LoserOutcome(p: int -> real, elo: map<nat, Record>, ps: seq<Participant>, io: seq<Access>, k: nat)
    requires IsPower(p) && |ps| == |io| && Ranked(ps) && Decided(ps, io) && 0 < k < |ps|
    ensures var r, s := Lookup(elo, ps[k].user), Lookup(AfterMatch(p, elo, ps, io), ps[k].user);
      if ps[k].score < ps[0].score && io[k].read && io[k].write
      then s == r.(rating := s.rating, losses := r.losses + 1) && r.rating - 32 <= s.rating <= r.rating
      else s == r
  {
    var rating := Rating(elo, ps[0].user);
    LoserRecord(p, elo, ps[1..], io[1..], ps[0].score, rating, k - 1);
    var winner := AfterLosers(p, elo, ps[1..][..k - 1], io[1..][..k - 1], ps[0].score, rating).1;
    WinTakes(p, winner, Rating(elo, ps[k].user));
    assert ps[1..][k - 1] == ps[k] && ps[0].user != ps[k].user && ps[0].score >= ps[k].score;
  }

  lemma {:induction false} DrawRecord(elo: map<nat, Record>, ps: seq<Participant>, io: seq<Access>, k: nat)
    requires |ps| == |io| && DistinctUsers(ps) && k < |ps|
    ensures var r := Lookup(elo, ps[k].user);
      Lookup(AfterDraw(elo, ps, io), ps[k].user)
      == if io[k].read && io[k].write then r.(draws := r.draws + 1) else r
    decreases |ps|
  {
    var r := Lookup(elo, ps[0].user);
    var next := if io[0].read && io[0].write then elo[ps[0].user := r.(draws := r.draws + 1)] else elo;
    if k == 0 {
      DrawElsewhere(next, ps[1..], io[1..], ps[0].user);
    } else {
      DrawRecord(next, ps[1..], io[1..], k - 1);
    }
  }

  lemma {:induction false} DrawElsewhere(elo: map<nat, Record>, ps: seq<Participant>, io: seq<Access>, user: nat)
    requires |ps| == |io| && forall i :: 0 <= i < |ps| ==> ps[i].user != user
    ensures Lookup(AfterDraw(elo, ps, io), user) == Lookup(elo, user)
    decreases |ps|
  {
    if ps != [] {
      assert ps[0].user != user;
      var r := Lookup(elo, ps[0].user);
      var next := if io[0].read && io[0].write then elo[ps[0].user := r.(draws := r.draws + 1)] else elo;
      DrawElsewhere(next, ps[1..], io[1..], user);
    }
  }

  /** Where everyone scored the same, each participant whose record can be read and
      written is credited with a draw, and nothing else of any record changes. */
  lemma DrawOutcome(p: int -> real, elo: map<nat, Record>, ps: seq<Participant>, io: seq<Access>, k: nat)
    requires IsPower(p) && |ps| == |io| && |ps| >= 2 && DistinctUsers(ps) && k < |ps|
    requires forall i :: 0 <= i < |ps| ==> ps[i].score == ps[0].score
    ensures var r, s := Lookup(elo, ps[k].user), Lookup(AfterMatch(p, elo, ps, io), ps[k].user);
      && s == r.(draws := s.draws)
      && s.draws == r.draws + (if io[k].read && io[k].write then 1 else 0)
  {
    DrawRecord(elo, ps, io, k);
  }

  /** A match of fewer than two, or one whose winner cannot be read, changes nothing. */
  lemma NoOutcome(p: int -> real, elo: map<nat, Record>, ps: seq<Participant>, io: seq<Access>)
    requires IsPower(p) && |ps| == |io|
    requires |ps| < 2 || (!io[0].read && exists i :: 0 <= i < |ps| && ps[i].score != ps[0].score)
    ensures AfterMatch(p, elo, ps, io) == elo
  {
  }

  /** The winner's rating when participant `k` is met: what was won from those met
      before is added, each win at its own worth. */
  function RatingAt(p: int -> real, elo: map<nat, Record>, ps: seq<Participant>, io: seq<Access>, k: nat): int
    requires IsPower(p) && |ps| == |io| && 1 <= k <= |ps|
  {
    if k == 1 then Rating(elo, ps[0].user)
    else
      var before := RatingAt(p, elo, ps, io, k - 1);
      var q := ps[k - 1];
      before + if q.score < ps[0].score && io[k - 1].read then Gain(p, before - Rating(elo, q.user)) else 0
  }

  lemma {:induction false} AppendLoser(p: int -> real, elo: map<nat, Record>, ps: seq<Participant>, io: seq<Access>,
                                       q: Participant, a: Access, top: int, rating: int)
    requires IsPower(p) && |ps| == |io|
    ensures var (after, running) := AfterLosers(p, elo, ps, io, top, rating);
      AfterLosers(p, elo, ps + [q], io + [a], top, rating) == AfterLoser(p, after, q, a, top, running)
    decreases |ps|
  {
    if ps == [] {
      assert (ps + [q])[1..] == [] && (io + [a])[1..] == [];
    } else {
      assert (ps + [q])[1..] == ps[1..] + [q] && (io + [a])[1..] == io[1..] + [a];
      var (next, newRating) := AfterLoser(p, elo, ps[0], io[0], top, rating);
      AppendLoser(p, next, ps[1..], io[1..], q, a, top, newRating);
    }
  }

  lemma RunningNext(p: int -> real, elo: map<nat, Record>, ps: seq<Participant>, io: seq<Access>,
                    q: Participant, a: Access, top: int, rating: int)
    requires IsPower(p) && |ps| == |io| && q.score <= top && forall i :: 0 <= i < |ps| ==> ps[i].user != q.user
    ensures var before := AfterLosers(p, elo, ps, io, top, rating).1;
      AfterLosers(p, elo, ps + [q], io + [a], top, rating).1
      == before + if q.score < top && a.read then Gain(p, before - Rating(elo, q.user)) else 0
  {
    AppendLoser(p, elo, ps, io, q, a, top, rating);
    OthersUntouched(p, elo, ps, io, top, rating, q.user);
    WinTakes(p, AfterLosers(p, elo, ps, io, top, rating).1, Rating(elo, q.user));
  }

  lemma {:induction false} RunningRating(p: int -> real, elo: map<nat, Record>, ps: seq<Participant>, io: seq<Access>, k: nat)
    requires IsPower(p) && |ps| == |io| && Ranked(ps) && 1 <= k <= |ps|
    ensures AfterLosers(p, elo, ps[1..k], io[1..k], ps[0].score, Rating(elo, ps[0].user)).1 == RatingAt(p, elo, ps, io, k)
    decreases k
  {
    if k > 1 {
      RunningRating(p, elo, ps, io, k - 1);
      assert ps[1..k] == ps[1..k - 1] + [ps[k - 1]] && io[1..k] == io[1..k - 1] + [io[k - 1]];
      RunningNext(p, elo, ps[1..k - 1], io[1..k - 1], ps[k - 1], io[k - 1], ps[0].score, Rating(elo, ps[0].user));
    }
  }

  /** The exact ratings after a decided match: each strictly lower scorer pays what
      a win is worth against the winner's rating so far, and the winner gets them all. */
  lemma MatchRatings(p: int -> real, elo: map<nat, Record>, ps: seq<Participant>, io: seq<Access>, k: nat)
    requires IsPower(p) && |ps| == |io| && Ranked(ps) && Decided(ps, io) && k < |ps|
    ensures var r, s := Rating(elo, ps[k].user), Rating(AfterMatch(p, elo, ps, io), ps[k].user);
      s == if !io[k].write then r
           else if k == 0 then RatingAt(p, elo, ps, io, |ps|)
           else if ps[k].score < ps[0].score && io[k].read then r - Gain(p, RatingAt(p, elo, ps, io, k) - r)
           else r
  {
    var top, start := ps[0].score, Rating(elo, ps[0].user);
    if k == 0 {
      RunningRating(p, elo, ps, io, |ps|);
      assert ps[1..|ps|] == ps[1..] && io[1..|ps|] == io[1..];
      OthersUntouched(p, elo, ps[1..], io[1..], top, start, ps[0].user);
    } else {
      RunningRating(p, elo, ps, io, k);
      LoserRecord(p, elo, ps[1..], io[1..], top, start, k - 1);
      assert ps[1..][..k - 1] == ps[1..k] && io[1..][..k - 1] == io[1..k];
      assert ps[1..][k - 1] == ps[k] && ps[0].user != ps[k].user && ps[k].score <= top;
    }
  }

  /** Nobody outside the match is touched. */
  lemma BystandersUntouched(p: int -> real, elo: map<nat, Record>, ps: seq<Participant>, io: seq<Access>, user: nat)
    requires IsPower(p) && |ps| == |io| && forall i :: 0 <= i < |ps| ==> ps[i].user != user
    ensures Lookup(AfterMatch(p, elo, ps, io), user) == Lookup(elo, user)
  {
    if |ps| >= 2 && AllDraw(ps) {
      DrawElsewhere(elo, ps, io, user);
    } else if Decided(ps, io) {
      OthersUntouched(p, elo, ps[1..], io[1..], ps[0].score, Rating(elo, ps[0].user), user);
    }
  }

  // ---- when a write fails -----------------------------------------------

  /** Every loser whose write ends like `written` is 720 points or more behind the
      winner's rating so far. */
  predicate WorthlessWhere(p: int -> real, elo: map<nat, Record>, ps: seq<Participant>, io: seq<Access>,
                           top: int, rating: int, written: bool)
    requires IsPower(p) && |ps| == |io|
    decreases |ps|
  {
    ps == [] ||
    var (next, newRating) := AfterLoser(p, elo, ps[0], io[0], top, rating);
    && (ps[0].score != top && io[0].read && io[0].write == written ==> rating - Rating(elo, ps[0].user) >= 720)
    && WorthlessWhere(p, next, ps[1..], io[1..], top, newRating, written)
  }

  /** Points kept by losers, and points the others gave, are none exactly when
      each of those wins was worth nothing. */
  lemma {:induction false} NothingMovedIff(p: int -> real, elo: map<nat, Record>, ps: seq<Participant>,
                                           io: seq<Access>, top: int, rating: int)
    requires IsPower(p) && |ps| == |io|
    ensures var kept := Kept(p, elo, ps, io, top, rating);
      var gained := AfterLosers(p, elo, ps, io, top, rating).1 - rating;
      && 0 <= kept <= gained
      && (kept == 0 <==> WorthlessWhere(p, elo, ps, io, top, rating, false))
      && (kept == gained <==> WorthlessWhere(p, elo, ps, io, top, rating, true))
    decreases |ps|
  {
    if ps != [] {
      var r := Rating(elo, ps[0].user);
      WinTakes(p, rating, r);
      GainVanishesIff(p, rating - r);
      var (next, newRating) := AfterLoser(p, elo, ps[0], io[0], top, rating);
      NothingMovedIff(p, next, ps[1..], io[1..], top, newRating);
    }
  }

  /** A decided match never loses points when the winner's record is written and
      never creates any when it is not; it conserves them exactly when every loser
      whose write went the other way was 720 points or more behind. */
  lemma MatchConservesIff(p: int -> real, elo: map<nat, Record>, ps: seq<Participant>, io: seq<Access>, roster: seq<nat>)
    requires IsPower(p) && |ps| == |io| && DistinctUsers(ps) && Covers(roster, ps) && Decided(ps, io)
    ensures var before, after := Total(elo, roster), Total(AfterMatch(p, elo, ps, io), roster);
      && (if io[0].write then after >= before else after <= before)
      && (after == before
          <==> WorthlessWhere(p, elo, ps[1..], io[1..], ps[0].score, Rating(elo, ps[0].user), !io[0].write))
  {
    MatchDrift(p, elo, ps, io, roster);
    NothingMovedIff(p, elo, ps[1..], io[1..], ps[0].score, Rating(elo, ps[0].user));
  }
}
