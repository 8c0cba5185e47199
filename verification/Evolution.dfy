/** The evolutionary loop: pick a parent by P-UCB, make a child, score it, rate the pair
    and insert the child, on stored objects changed in place. */
module Evolution {
  import opened Basics

  // ----- ratings

  const K_FACTOR := 32.0

  /** What is needed of the power of ten. */
  ghost predicate IsPower(pow: real -> real) {
    forall x :: pow(x) > 0.0 && pow(x) * pow(-x) == 1.0
  }

  /** `expected_score`. */
  function Expected(pow: real -> real, ra: real, rb: real): real
    requires 1.0 + pow((rb - ra) / 400.0) != 0.0
  {
    1.0 / (1.0 + pow((rb - ra) / 400.0))
  }

  lemma ComplementProduct(p: real, q: real)
    requires p > 0.0 && q > 0.0 && p * q == 1.0
    ensures 1.0 / (1.0 + p) + 1.0 / (1.0 + q) == 1.0
  {
    var a, b := 1.0 / (1.0 + p), 1.0 / (1.0 + q);
    assert a * (1.0 + p) == 1.0 && b * (1.0 + q) == 1.0;
    assert (1.0 + p) * (1.0 + q) == 2.0 + p + q;
    assert (a + b) * ((1.0 + p) * (1.0 + q)) == (1.0 + q) * (a * (1.0 + p)) + (1.0 + p) * (b * (1.0 + q));
    assert (a + b - 1.0) * (2.0 + p + q) == 0.0;
  }

  /** The two expectations of a game add up to one, and between equals each is a half. */
  lemma ExpectationsComplement(pow: real -> real, ra: real, rb: real)
    requires IsPower(pow)
    ensures Expected(pow, ra, rb) + Expected(pow, rb, ra) == 1.0
    ensures ra == rb ==> Expected(pow, ra, rb) == 0.5
  {
    var x := (rb - ra) / 400.0;
    assert (ra - rb) / 400.0 == -x;
    ComplementProduct(pow(x), pow(-x));
  }

  /** `update_elo`. */
  function UpdateElo(pow: real -> real, ra: real, rb: real, scoreA: real, k: real): (r: (real, real))
    requires IsPower(pow)
    ensures r.0 + r.1 == ra + rb
  {
    ExpectationsComplement(pow, ra, rb);
    (ra + k * (scoreA - Expected(pow, ra, rb)), rb + k * (1.0 - scoreA - Expected(pow, rb, ra)))
  }

  /** The ratings of child and parent after `_apply_elo`. */
  function Rated(pow: real -> real, child: real, parent: real, score: real): (r: (real, real))
    requires IsPower(pow)
    ensures r.0 + r.1 == child + parent
  {
    var e := Expected(pow, child, parent);
    (child + K_FACTOR * (score - e), parent + K_FACTOR * (1.0 - score - (1.0 - e)))
  }

  /** A winner gains and a loser loses, each less than the factor. */
  lemma WinnerGains(pow: real -> real, ra: real, rb: real)
    requires IsPower(pow)
    ensures 0.0 < Expected(pow, ra, rb) < 1.0
    ensures var won := UpdateElo(pow, ra, rb, 1.0, K_FACTOR); ra < won.0 < ra + 32.0 && rb - 32.0 < won.1 < rb
    ensures var won := Rated(pow, ra, rb, 1.0); ra < won.0 < ra + 32.0 && rb - 32.0 < won.1 < rb
    ensures var lost := Rated(pow, ra, rb, 0.0); ra - 32.0 < lost.0 < ra && rb < lost.1 < rb + 32.0
    ensures UpdateElo(pow, ra, rb, 1.0, K_FACTOR) == Rated(pow, ra, rb, 1.0)
  {
    ExpectationsComplement(pow, ra, rb);
    FractionBounds(pow((rb - ra) / 400.0));
  }

  lemma FractionBounds(p: real)
    requires p > 0.0
    ensures 0.0 < 1.0 / (1.0 + p) < 1.0
  {
    var e := 1.0 / (1.0 + p);
    assert e * (1.0 + p) == 1.0;
    assert e <= 0.0 ==> e * (1.0 + p) <= 0.0;
  }

  // ----- who is expected to win

  /** The power grows with its exponent. */
  ghost predicate Grows(pow: real -> real) {
    forall x, y | x < y :: pow(x) < pow(y)
  }

  lemma FractionDecreases(p: real, q: real)
    requires 0.0 < p < q
    ensures 1.0 / (1.0 + q) < 1.0 / (1.0 + p)
  {
    var a, b := 1.0 / (1.0 + p), 1.0 / (1.0 + q);
    assert a * (1.0 + p) == 1.0 && b * (1.0 + q) == 1.0;
    FractionBounds(q);
    assert b * (1.0 + p) < b * (1.0 + q);
    assert (a - b) * (1.0 + p) > 0.0;
  }

  /** A player's expectation grows with the own rating and falls with the rival's. */
  lemma ExpectedOrder(pow: real -> real, ra: real, rb: real, r: real)
    requires IsPower(pow) && Grows(pow)
    ensures ra < r ==> Expected(pow, ra, rb) < Expected(pow, r, rb)
    ensures rb < r ==> Expected(pow, ra, r) < Expected(pow, ra, rb)
  {
    if ra < r { FractionDecreases(pow((rb - r) / 400.0), pow((rb - ra) / 400.0)); }
    if rb < r { FractionDecreases(pow((rb - ra) / 400.0), pow((r - ra) / 400.0)); }
  }

  /** The favourite is the one with the higher rating. */
  lemma FavouriteIff(pow: real -> real, ra: real, rb: real)
    requires IsPower(pow) && Grows(pow)
    ensures ra > rb <==> Expected(pow, ra, rb) > 0.5
  {
    ExpectationsComplement(pow, rb, rb);
    ExpectedOrder(pow, rb, rb, ra);
    ExpectedOrder(pow, ra, rb, rb);
  }

  /** The odds of the rival are the power of the rating difference over 400. */
  lemma Odds(pow: real -> real, ra: real, rb: real)
    requires IsPower(pow)
    ensures Expected(pow, rb, ra) == Expected(pow, ra, rb) * pow((rb - ra) / 400.0)
  {
    var p := pow((rb - ra) / 400.0);
    ExpectationsComplement(pow, ra, rb);
    assert Expected(pow, ra, rb) * (1.0 + p) == 1.0;
  }

  /** What the same score brings grows with the rival's rating: to beat a stronger one gains
      more, and to lose to it costs less. */
  lemma UpsetsPayMore(pow: real -> real, ra: real, rb: real, stronger: real, score: real)
    requires IsPower(pow) && Grows(pow) && rb < stronger
    ensures UpdateElo(pow, ra, rb, score, K_FACTOR).0 < UpdateElo(pow, ra, stronger, score, K_FACTOR).0
    ensures Rated(pow, ra, rb, score).0 < Rated(pow, ra, stronger, score).0
  {
    ExpectedOrder(pow, ra, rb, stronger);
    hide Expected;
  }

  /** Between equals a win is worth 16, and each part of a score its part of 32; so every
      change of rating is known from the odds. */
  lemma GainsByScore(pow: real -> real, ra: real, rb: real, score: real)
    requires IsPower(pow)
    ensures ra == rb ==> UpdateElo(pow, ra, rb, 1.0, K_FACTOR) == (ra + 16.0, rb - 16.0)
    ensures ra == rb ==> Rated(pow, ra, rb, 1.0) == (ra + 16.0, rb - 16.0)
    ensures UpdateElo(pow, ra, rb, score, K_FACTOR).0 == UpdateElo(pow, ra, rb, 0.0, K_FACTOR).0 + 32.0 * score
    ensures UpdateElo(pow, ra, rb, score, K_FACTOR) == Rated(pow, ra, rb, score)
    ensures UpdateElo(pow, ra, rb, Expected(pow, ra, rb), K_FACTOR) == (ra, rb)
  {
    ExpectationsComplement(pow, ra, rb);
    hide Expected;
  }

  // ----- a round of a tournament

  datatype Player = Player(id: Id, elo: real)

  function Total(keys: seq<Id>, ratings: map<Id, real>): real
    requires forall i | 0 <= i < |keys| :: keys[i] in ratings
  {
    if keys == [] then 0.0 else Total(keys[..|keys| - 1], ratings) + ratings[keys[|keys| - 1]]
  }

  /** Changing one rating changes the total by the same. */
  lemma {:induction false} TotalUpdate(keys: seq<Id>, ratings: map<Id, real>, id: Id, r: real)
    requires Distinct(keys) && forall i | 0 <= i < |keys| :: keys[i] in ratings
    ensures Total(keys, ratings[id := r]) == Total(keys, ratings) + if id in keys then r - ratings[id] else 0.0
  {
    if keys != [] {
      var n := |keys| - 1;
      TotalUpdate(keys[..n], ratings, id, r);
      assert keys == keys[..n] + [keys[n]];
    }
  }

  /** A dictionary of ratings, its keys in the order they were first set. */
  datatype Table = Table(keys: seq<Id>, of: map<Id, real>)

  ghost predicate Valid(t: Table) {
    Distinct(t.keys) && forall x :: x in t.keys <==> x in t.of
  }

  function SetDefault(t: Table, p: Player): Table {
    if p.id in t.of then t else Table(t.keys + [p.id], t.of[p.id := p.elo])
  }

  /** Every player's rating as first met. */
  function Start(pairs: seq<(Player, Player)>): (t: Table)
    ensures forall i | 0 <= i < |pairs| :: pairs[i].0.id in t.of && pairs[i].1.id in t.of
  {
    if pairs == [] then Table([], map[])
    else
      var n := |pairs| - 1;
      SetDefault(SetDefault(Start(pairs[..n]), pairs[n].0), pairs[n].1)
  }

  /** One game: both ratings are read, then both are written. */
  function Play(pow: real -> real, t: Table, a: Id, b: Id, scoreA: real): Table
    requires IsPower(pow) && a in t.of && b in t.of
  {
    var r := UpdateElo(pow, t.of[a], t.of[b], scoreA, K_FACTOR);
    t.(of := t.of[a := r.0][b := r.1])
  }

  function Rounds(pow: real -> real, t: Table, pairs: seq<(Player, Player)>, scores: seq<real>): (u: Table)
    requires IsPower(pow) && |scores| == |pairs|
    requires forall i | 0 <= i < |pairs| :: pairs[i].0.id in t.of && pairs[i].1.id in t.of
    ensures u.keys == t.keys && u.of.Keys == t.of.Keys
  {
    if pairs == [] then t
    else
      var n := |pairs| - 1;
      Play(pow, Rounds(pow, t, pairs[..n], scores[..n]), pairs[n].0.id, pairs[n].1.id, scores[n])
  }

  /** The first loop of `tournament_round`. */
  method StartRatings(pairs: seq<(Player, Player)>) returns (ratings: map<Id, real>)
    ensures ratings == Start(pairs).of
  {
    ratings := map[];
    for i := 0 to |pairs|
      invariant ratings == Start(pairs[..i]).of
    {
      assert pairs[..i + 1][..i] == pairs[..i];
      if pairs[i].0.id !in ratings {
        ratings := ratings[pairs[i].0.id := pairs[i].0.elo];
      }
      if pairs[i].1.id !in ratings {
        ratings := ratings[pairs[i].1.id := pairs[i].1.elo];
      }
    }
    assert pairs[..|pairs|] == pairs;
  }

  lemma RoundsNext(pow: real -> real, t: Table, pairs: seq<(Player, Player)>, scores: seq<real>, i: nat)
    requires IsPower(pow) && |scores| == |pairs| && i < |pairs|
    requires forall j | 0 <= j < |pairs| :: pairs[j].0.id in t.of && pairs[j].1.id in t.of
    ensures Rounds(pow, t, pairs[..i + 1], scores[..i + 1])
         == Play(pow, Rounds(pow, t, pairs[..i], scores[..i]), pairs[i].0.id, pairs[i].1.id, scores[i])
  {
    hide Play;
    assert pairs[..i + 1][..i] == pairs[..i] && scores[..i + 1][..i] == scores[..i];
  }

  /** `tournament_round`; `scores` are what the rater says of each pair in turn. */
  method TournamentRound(pow: real -> real, pairs: seq<(Player, Player)>, scores: seq<real>)
      returns (ratings: map<Id, real>)
    requires IsPower(pow) && |scores| == |pairs|
    ensures ratings == Rounds(pow, Start(pairs), pairs, scores).of
  {
    ratings := StartRatings(pairs);
    ghost var start := Start(pairs);
    hide Start, Expected, IsPower, Rounds;
    RoundsNone(pow, start);
    for i := 0 to |pairs|
      invariant ratings == Rounds(pow, start, pairs[..i], scores[..i]).of
    {
      RoundsNext(pow, start, pairs, scores, i);
      var a, b := pairs[i].0.id, pairs[i].1.id;
      var r := UpdateElo(pow, ratings[a], ratings[b], scores[i], K_FACTOR);
      ratings := ratings[a := r.0];
      ratings := ratings[b := r.1];
    }
    assert scores[..|scores|] == scores && pairs[..|pairs|] == pairs;
  }

  lemma RoundsNone(pow: real -> real, t: Table)
    requires IsPower(pow)
    ensures Rounds(pow, t, [], []) == t
  {
  }

  /** A game of a player with itself. */
  function SelfGain(pair: (Player, Player), score: real): real {
    if pair.0.id == pair.1.id then K_FACTOR * (0.5 - score) else 0.0
  }

  function SelfGains(pairs: seq<(Player, Player)>, scores: seq<real>): real
    requires |scores| == |pairs|
  {
    if pairs == [] then 0.0
    else SelfGains(pairs[..|pairs| - 1], scores[..|pairs| - 1]) + SelfGain(pairs[|pairs| - 1], scores[|pairs| - 1])
  }

  lemma PlayTotal(pow: real -> real, t: Table, a: Id, b: Id, scoreA: real)
    requires Valid(t) && IsPower(pow) && a in t.of && b in t.of
    ensures Valid(Play(pow, t, a, b, scoreA))
    ensures Total(t.keys, Play(pow, t, a, b, scoreA).of)
         == Total(t.keys, t.of) + if a == b then K_FACTOR * (0.5 - scoreA) else 0.0
  {
    var r := UpdateElo(pow, t.of[a], t.of[b], scoreA, K_FACTOR);
    TotalUpdate(t.keys, t.of, a, r.0);
    TotalUpdate(t.keys, t.of[a := r.0], b, r.1);
    if a == b { ExpectationsComplement(pow, t.of[a], t.of[a]); }
  }

  /** A round changes the total of the ratings only by the games of a player with itself;
      so it conserves the total when every pair has two different ids. */
  lemma {:induction false} RoundConserves(pow: real -> real, t: Table, pairs: seq<(Player, Player)>, scores: seq<real>)
    requires IsPower(pow) && |scores| == |pairs| && Valid(t)
    requires forall i | 0 <= i < |pairs| :: pairs[i].0.id in t.of && pairs[i].1.id in t.of
    ensures Valid(Rounds(pow, t, pairs, scores))
    ensures Total(t.keys, Rounds(pow, t, pairs, scores).of) == Total(t.keys, t.of) + SelfGains(pairs, scores)
    ensures (forall i | 0 <= i < |pairs| :: pairs[i].0.id != pairs[i].1.id) ==> SelfGains(pairs, scores) == 0.0
  {
    if pairs != [] {
      var n := |pairs| - 1;
      RoundConserves(pow, t, pairs[..n], scores[..n]);
      PlayTotal(pow, Rounds(pow, t, pairs[..n], scores[..n]), pairs[n].0.id, pairs[n].1.id, scores[n]);
    }
  }

  // ----- selection

  /** A stored candidate. */
  datatype Record = Record(id: Id, elo: real, selected: nat, parents: seq<Id>)

  /** `a` comes before `b` for the selection: `a` is unseen and `b` is not, or both are
      seen and `a` scores higher, or they tie and the id of `a` is not the greater. */
  predicate Preferred(bonus: (nat, nat) -> real, total: nat, a: Record, b: Record) {
    if a.selected == 0 || b.selected == 0 then
      a.selected == 0 && (b.selected != 0 || StrLe(a.id, b.id))
    else
      var sa, sb := a.elo + bonus(total, a.selected), b.elo + bonus(total, b.selected);
      sa > sb || (sa == sb && StrLe(a.id, b.id))
  }

  /** `p_ucb`: the position of the first candidate preferred to all others. */
  function PUcb(bonus: (nat, nat) -> real, total: nat, cands: seq<Record>): (best: nat)
    requires cands != []
    ensures best < |cands|
  {
    if |cands| == 1 then 0
    else
      var n := |cands| - 1;
      var best := PUcb(bonus, total, cands[..n]);
      if Preferred(bonus, total, cands[best], cands[n]) then best else n
  }

  lemma PUcbOne(bonus: (nat, nat) -> real, total: nat, cands: seq<Record>)
    requires |cands| == 1
    ensures PUcb(bonus, total, cands) == 0
  {
  }

  lemma PUcbNext(bonus: (nat, nat) -> real, total: nat, cands: seq<Record>, i: nat)
    requires 1 <= i < |cands|
    ensures var best := PUcb(bonus, total, cands[..i]);
            PUcb(bonus, total, cands[..i + 1]) == if Preferred(bonus, total, cands[best], cands[i]) then best else i
  {
    hide Preferred;
    assert cands[..i + 1][..i] == cands[..i];
  }

  lemma PreferredTotal(bonus: (nat, nat) -> real, total: nat, a: Record, b: Record)
    ensures Preferred(bonus, total, a, b) || Preferred(bonus, total, b, a)
    ensures Preferred(bonus, total, a, b) && Preferred(bonus, total, b, a) ==> a.id == b.id
  {
    StrLeTotal(a.id, b.id);
  }

  lemma PreferredTransitive(bonus: (nat, nat) -> real, total: nat, a: Record, b: Record, c: Record)
    requires Preferred(bonus, total, a, b) && Preferred(bonus, total, b, c)
    ensures Preferred(bonus, total, a, c)
  {
    if StrLe(a.id, b.id) && StrLe(b.id, c.id) { StrLeTransitive(a.id, b.id, c.id); }
  }

  /** The selected candidate is preferred to every other; so it is unseen if any is. */
  lemma {:induction false} PUcbIsBest(bonus: (nat, nat) -> real, total: nat, cands: seq<Record>)
    requires cands != []
    ensures forall i | 0 <= i < |cands| :: Preferred(bonus, total, cands[PUcb(bonus, total, cands)], cands[i])
    ensures (exists i :: 0 <= i < |cands| && cands[i].selected == 0) ==> cands[PUcb(bonus, total, cands)].selected == 0
  {
    hide Preferred;
    var n := |cands| - 1;
    PreferredTotal(bonus, total, cands[n], cands[n]);
    if n > 0 {
      PUcbIsBest(bonus, total, cands[..n]);
      var best := PUcb(bonus, total, cands[..n]);
      if !Preferred(bonus, total, cands[best], cands[n]) {
        PreferredTotal(bonus, total, cands[best], cands[n]);
        forall i | 0 <= i < n
          ensures Preferred(bonus, total, cands[n], cands[i])
        {
          assert cands[i] == cands[..n][i];
          PreferredTransitive(bonus, total, cands[n], cands[best], cands[i]);
        }
      }
      assert forall i | 0 <= i < n :: cands[i] == cands[..n][i];
    }
    UnseenFirst(bonus, total, cands, PUcb(bonus, total, cands));
  }

  lemma UnseenFirst(bonus: (nat, nat) -> real, total: nat, cands: seq<Record>, best: nat)
    requires best < |cands| && forall i | 0 <= i < |cands| :: Preferred(bonus, total, cands[best], cands[i])
    ensures (exists i :: 0 <= i < |cands| && cands[i].selected == 0) ==> cands[best].selected == 0
  {
  }

  /** It is an unseen candidate if there is one, the one with the least id; and otherwise
      one whose rating and bonus together are the greatest, among equals the least by id. */
  lemma PUcbMaximises(bonus: (nat, nat) -> real, total: nat, cands: seq<Record>, i: nat)
    requires i < |cands|
    ensures var b, c := cands[PUcb(bonus, total, cands)], cands[i];
            if c.selected == 0 then b.selected == 0 && StrLe(b.id, c.id)
            else
              b.selected == 0 || b.elo + bonus(total, b.selected) > c.elo + bonus(total, c.selected)
              || (b.elo + bonus(total, b.selected) == c.elo + bonus(total, c.selected) && StrLe(b.id, c.id))
  {
    PUcbIsBest(bonus, total, cands);
    hide StrLe, PUcb;
  }

  // ----- one step on values

  function Visits(pop: seq<Record>): nat {
    if pop == [] then 0 else Visits(pop[..|pop| - 1]) + pop[|pop| - 1].selected
  }

  function TotalElo(pop: seq<Record>): real {
    if pop == [] then 0.0 else TotalElo(pop[..|pop| - 1]) + pop[|pop| - 1].elo
  }

  /** What the seams yield in one step: the child as the operator made it, whether its
      fitness prunes it, and its score against the parent. */
  datatype Outcome = Outcome(id: Id, elo: real, selected: nat, prune: bool, score: real)

  function Parent(bonus: (nat, nat) -> real, pop: seq<Record>): (best: nat)
    requires pop != []
    ensures best < |pop|
  {
    PUcb(bonus, Visits(pop), pop)
  }

  ghost predicate Ids(pop: seq<Record>) {
    forall i, j | 0 <= i < j < |pop| :: pop[i].id != pop[j].id
  }

  /** The position of an id, or the length. */
  function Find(pop: seq<Record>, id: Id): (i: nat)
    ensures i <= |pop|
    ensures i < |pop| ==> pop[i].id == id
    ensures forall j | 0 <= j < i :: pop[j].id != id
  {
    if pop == [] then 0 else if pop[0].id == id then 0 else 1 + Find(pop[1..], id)
  }

  /** `PopulationDB.add`: replaces the record of an id or appends a new one. */
  function Added(pop: seq<Record>, r: Record): seq<Record> {
    var i := Find(pop, r.id);
    if i < |pop| then pop[i := r] else pop + [r]
  }

  /** The records stored under distinct keys have distinct ids. */
  lemma KeysAreIds(pop: seq<Record>, keys: seq<Id>)
    requires Distinct(keys) && |pop| == |keys| && forall i | 0 <= i < |pop| :: pop[i].id == keys[i]
    ensures Ids(pop)
  {
  }

  lemma DistinctAppend(keys: seq<Id>, id: Id)
    requires Distinct(keys) && id !in keys
    ensures Distinct(keys + [id])
  {
  }

  lemma AddedReplaces(pop: seq<Record>, p: nat, r: Record)
    requires Ids(pop) && p < |pop| && pop[p].id == r.id
    ensures Added(pop, r) == pop[p := r]
  {
  }

  lemma AddedAppends(pop: seq<Record>, r: Record)
    requires forall i | 0 <= i < |pop| :: pop[i].id != r.id
    ensures Added(pop, r) == pop + [r]
  {
  }

  /** The population after rating `born` against the record at `p` and storing it. */
  function RatedAndAdded(pow: real -> real, pop: seq<Record>, p: nat, born: Record, score: real): seq<Record>
    requires IsPower(pow) && p < |pop|
  {
    var r := Rated(pow, born.elo, pop[p].elo, score);
    Added(pop[p := pop[p].(elo := r.1)], born.(elo := r.0))
  }

  /** The population after a step that selects the record at `p`. */
  function Grown(pow: real -> real, pop: seq<Record>, p: nat, out: Outcome): seq<Record>
    requires IsPower(pow) && p < |pop|
  {
    var seen := pop[p := pop[p].(selected := pop[p].selected + 1)];
    if out.prune then seen
    else RatedAndAdded(pow, seen, p, Record(out.id, out.elo, out.selected, [pop[p].id]), out.score)
  }

  /** The population after `step`. */
  function Stepped(pow: real -> real, bonus: (nat, nat) -> real, pop: seq<Record>, out: Outcome): seq<Record>
    requires IsPower(pow)
  {
    if pop == [] then pop else Grown(pow, pop, Parent(bonus, pop), out)
  }

  // ----- one step on objects

  class Candidate {
    const id: Id
    var elo: real
    var nSelected: nat
    var parentIds: seq<Id>
    var prune: bool

    constructor (id: Id, elo: real, nSelected: nat, parentIds: seq<Id>)
      ensures this.id == id && Value() == Record(id, elo, nSelected, parentIds)
    {
      this.id, this.elo, this.nSelected, this.parentIds, this.prune := id, elo, nSelected, parentIds, false;
    }

    function Value(): Record
      reads this
    {
      Record(id, elo, nSelected, parentIds)
    }

    /** Records the parent of a child and whether it is pruned. */
    method SetOrigin(parent: Id, prune: bool)
      modifies this`parentIds, this`prune
      ensures Value() == old(Value()).(parents := [parent]) && this.prune == prune
    {
      parentIds := [parent];
      this.prune := prune;
    }
  }

  /** The candidates in the order their ids were first added. */
  class PopulationDB {
    var keys: seq<Id>
    var store: map<Id, Candidate>

    ghost predicate Valid()
      reads this
    {
      Distinct(keys) && (forall x :: x in keys <==> x in store) && forall x | x in store :: store[x].id == x
    }

    ghost function Contents(): (pop: seq<Record>)
      requires Valid()
      reads this, store.Values
      ensures |pop| == |keys|
      ensures forall i | 0 <= i < |keys| :: keys[i] in store && pop[i] == store[keys[i]].Value()
    {
      seq(|keys|, i requires 0 <= i < |keys| && keys[i] in store reads this, store.Values => store[keys[i]].Value())
    }

    constructor ()
      ensures Valid() && Contents() == []
    {
      keys, store := [], map[];
    }

    /** `add`: insert or replace by id. */
    method Add(c: Candidate)
      requires Valid()
      modifies this
      ensures Valid() && store == old(store)[c.id := c]
      ensures Contents() == Added(old(Contents()), c.Value())
    {
      ghost var pop := Contents();
      KeysAreIds(pop, keys);
      hide Find, Added, Ids, Contents;
      if c.id !in store {
        AddedAppends(pop, c.Value());
        Insert(c);
      } else {
        ghost var p :| 0 <= p < |keys| && keys[p] == c.id;
        AddedReplaces(pop, p, c.Value());
        Replace(c, p);
      }
    }

    method Insert(c: Candidate)
      requires Valid() && c.id !in store
      modifies this
      ensures Valid() && store == old(store)[c.id := c]
      ensures Contents() == old(Contents()) + [c.Value()]
    {
      DistinctAppend(keys, c.id);
      hide Distinct;
      ghost var pop := Contents();
      keys, store := keys + [c.id], store[c.id := c];
      assert Contents() == pop + [c.Value()];
    }

    method Replace(c: Candidate, ghost p: nat)
      requires Valid() && p < |keys| && keys[p] == c.id
      modifies this`store
      ensures Valid() && store == old(store)[c.id := c]
      ensures Contents() == old(Contents())[p := c.Value()]
    {
      ghost var pop := Contents();
      store := store[c.id := c];
      assert Contents() == pop[p := c.Value()];
    }

    /** The sum of the visit counts. */
    method TotalVisits() returns (total: nat)
      requires Valid()
      ensures total == Visits(Contents())
    {
      total := 0;
      for i := 0 to |keys|
        invariant total == Visits(Contents()[..i])
      {
        assert Contents()[..i + 1][..i] == Contents()[..i];
        total := total + store[keys[i]].nSelected;
      }
      assert Contents()[..|keys|] == Contents();
    }

    /** `_select_parent`. */
    method SelectParent(bonus: (nat, nat) -> real) returns (best: nat)
      requires Valid() && keys != []
      ensures best == Parent(bonus, Contents())
    {
      hide Preferred, PUcb, Visits, Contents;
      var total := TotalVisits();
      best := 0;
      PUcbOne(bonus, total, Contents()[..1]);
      for i := 1 to |keys|
        invariant best < i && best == PUcb(bonus, total, Contents()[..i])
      {
        PUcbNext(bonus, total, Contents(), i);
        if !Preferred(bonus, total, store[keys[best]].Value(), store[keys[i]].Value()) {
          best := i;
        }
      }
      assert Contents()[..|keys|] == Contents();
    }

    /** `step`, with what the seams return for the parent it selects: a child object that
        is not stored, whether its fitness prunes it, and its score. */
    method Step(pow: real -> real, bonus: (nat, nat) -> real, child: Candidate, prune: bool, score: real)
      requires Valid() && IsPower(pow) && child !in store.Values
      modifies this, store.Values, child
      ensures Valid()
      ensures Contents() == Stepped(pow, bonus, old(Contents()),
              Outcome(child.id, old(child.elo), old(child.nSelected), prune, score))
    {
      hide Parent, Contents, Grown;
      if keys == [] {
        assert Contents() == [];
        return;
      }
      var p := SelectParent(bonus);
      Grow(pow, p, child, prune, score);
    }

    /** A step once its parent is selected. */
    method Grow(pow: real -> real, p: nat, child: Candidate, prune: bool, score: real)
      requires Valid() && IsPower(pow) && p < |keys| && child !in store.Values
      modifies this, store.Values, child
      ensures Valid()
      ensures Contents() == Grown(pow, old(Contents()), p,
              Outcome(child.id, old(child.elo), old(child.nSelected), prune, score))
    {
      hide Contents, RatedAndAdded;
      assert keys[p] == Contents()[p].id;
      Visit(p);
      child.SetOrigin(keys[p], prune);
      if !prune {
        RateAndAdd(pow, p, child, score);
      }
    }

    /** The end of a step: rate the child against the parent and store it. */
    method RateAndAdd(pow: real -> real, p: nat, child: Candidate, score: real)
      requires Valid() && IsPower(pow) && p < |keys| && child !in store.Values
      modifies this, store.Values, child
      ensures Valid()
      ensures Contents() == RatedAndAdded(pow, old(Contents()), p, old(child.Value()), score)
    {
      hide Added, Contents, Rated;
      ghost var was := child.Value();
      Rate(pow, p, child, score);
      assert child.Value() == was.(elo := child.elo);
      Add(child);
    }

    /** Counts a visit of the selected parent. */
    method Visit(p: nat)
      requires Valid() && p < |keys|
      modifies store.Values
      ensures Valid()
      ensures var pop := old(Contents()); Contents() == pop[p := pop[p].(selected := pop[p].selected + 1)]
      ensures forall c: Candidate | c in store.Values && c != store[keys[p]] :: unchanged(c)
    {
      ghost var pop := Contents();
      var parent := store[keys[p]];
      assert parent in store.Values;
      parent.nSelected := parent.nSelected + 1;
      Changed(pop, p, parent.Value());
    }

    /** Rates the child and the parent against each other. */
    method Rate(pow: real -> real, p: nat, child: Candidate, score: real)
      requires Valid() && IsPower(pow) && p < |keys| && child !in store.Values
      modifies store.Values, child
      ensures Valid() && child.nSelected == old(child.nSelected) && child.parentIds == old(child.parentIds)
      ensures child.elo == Rated(pow, old(child.elo), old(Contents())[p].elo, score).0
      ensures var pop := old(Contents());
              Contents() == pop[p := pop[p].(elo := Rated(pow, old(child.elo), pop[p].elo, score).1)]
    {
      hide Rated;
      ghost var pop := Contents();
      var parent := store[keys[p]];
      assert parent in store.Values;
      ApplyElo(pow, child, parent, score);
      Changed(pop, p, parent.Value());
    }

    /** `_apply_elo`. */
    method ApplyElo(pow: real -> real, child: Candidate, parent: Candidate, score: real)
      requires IsPower(pow) && child != parent
      modifies child, parent
      ensures child.nSelected == old(child.nSelected) && child.parentIds == old(child.parentIds)
      ensures parent.nSelected == old(parent.nSelected) && parent.parentIds == old(parent.parentIds)
      ensures (child.elo, parent.elo) == Rated(pow, old(child.elo), old(parent.elo), score)
    {
      var e := Expected(pow, child.elo, parent.elo);
      child.elo := child.elo + K_FACTOR * (score - e);
      parent.elo := parent.elo + K_FACTOR * (1.0 - score - (1.0 - e));
    }

    /** After a change to one stored object the contents differ in its record alone. */
    ghost method Changed(pop: seq<Record>, p: nat, r: Record)
      requires Valid() && |pop| == |keys| && p < |keys|
      requires store[keys[p]].Value() == r
      requires forall i | 0 <= i < |keys| && i != p :: store[keys[i]].Value() == pop[i]
      ensures Contents() == pop[p := r]
    {
    }
  }

  // ----- runs

  function Run(pow: real -> real, bonus: (nat, nat) -> real, pop: seq<Record>, outs: seq<Outcome>): seq<Record>
    requires IsPower(pow)
    decreases |outs|
  {
    if outs == [] then pop else Run(pow, bonus, Stepped(pow, bonus, pop, outs[0]), outs[1..])
  }

  /** Every child comes with an id not stored yet and no visits. */
  ghost predicate FreshRun(pow: real -> real, bonus: (nat, nat) -> real, pop: seq<Record>, outs: seq<Outcome>)
    requires IsPower(pow)
    decreases |outs|
  {
    outs == []
    || ((forall i | 0 <= i < |pop| :: pop[i].id != outs[0].id) && outs[0].selected == 0
        && FreshRun(pow, bonus, Stepped(pow, bonus, pop, outs[0]), outs[1..]))
  }

  /** The ratings inserted children start from. */
  function Inserted(outs: seq<Outcome>): real {
    if outs == [] then 0.0 else (if outs[0].prune then 0.0 else outs[0].elo) + Inserted(outs[1..])
  }

  /** Every parent of a record is stored before it. */
  ghost predicate Lineage(pop: seq<Record>) {
    forall i, x | 0 <= i < |pop| && x in pop[i].parents :: exists j :: 0 <= j < i && pop[j].id == x
  }

  lemma {:induction false} SumsUpdate(pop: seq<Record>, p: nat, r: Record)
    requires p < |pop|
    ensures Visits(pop[p := r]) == Visits(pop) - pop[p].selected + r.selected
    ensures TotalElo(pop[p := r]) == TotalElo(pop) - pop[p].elo + r.elo
  {
    var n := |pop| - 1;
    if p < n {
      assert pop[p := r][..n] == pop[..n][p := r];
      SumsUpdate(pop[..n], p, r);
    } else {
      assert pop[p := r][..n] == pop[..n];
    }
  }

  lemma SumsAppend(pop: seq<Record>, r: Record)
    ensures Visits([]) == 0 && TotalElo([]) == 0.0
    ensures Visits(pop + [r]) == Visits(pop) + r.selected && TotalElo(pop + [r]) == TotalElo(pop) + r.elo
  {
    assert (pop + [r])[..|pop|] == pop;
  }

  /** One step raises the visits by one, changes the ratings only by what an inserted child
      brings, and keeps ids distinct and lineage stored. */
  lemma StepConserves(pow: real -> real, bonus: (nat, nat) -> real, pop: seq<Record>, out: Outcome)
    requires IsPower(pow) && pop != [] && Ids(pop) && Lineage(pop)
    requires out.selected == 0 && forall i | 0 <= i < |pop| :: pop[i].id != out.id
    ensures var t := Stepped(pow, bonus, pop, out);
            && t != [] && Ids(t) && Lineage(t)
            && Visits(t) == Visits(pop) + 1
            && TotalElo(t) == TotalElo(pop) + if out.prune then 0.0 else out.elo
  {
    hide *;
    if out.prune {
      PrunedConserves(pow, bonus, pop, out);
    } else {
      RatedConserves(pow, bonus, pop, out);
    }
  }

  lemma PrunedConserves(pow: real -> real, bonus: (nat, nat) -> real, pop: seq<Record>, out: Outcome)
    requires IsPower(pow) && pop != [] && Ids(pop) && Lineage(pop) && out.prune
    ensures var t := Stepped(pow, bonus, pop, out);
            t != [] && Ids(t) && Lineage(t) && Visits(t) == Visits(pop) + 1 && TotalElo(t) == TotalElo(pop)
  {
    hide Parent, Lineage, Ids, Visits, TotalElo;
    var p := Parent(bonus, pop);
    var parent := pop[p].(selected := pop[p].selected + 1);
    SumsUpdate(pop, p, parent);
    SameLineage(pop, p, parent);
  }

  /** A step visits its parent, rates it against the child and stores the child last; a
      pruned child leaves the visit alone. */
  lemma StepIs(pow: real -> real, bonus: (nat, nat) -> real, pop: seq<Record>, out: Outcome)
    requires IsPower(pow) && pop != [] && forall i | 0 <= i < |pop| :: pop[i].id != out.id
    ensures var p := Parent(bonus, pop);
            var seen := pop[p].(selected := pop[p].selected + 1);
            var r := UpdateElo(pow, out.elo, pop[p].elo, out.score, 32.0);
            Stepped(pow, bonus, pop, out)
            == if out.prune then pop[p := seen]
               else pop[p := seen.(elo := r.1)] + [Record(out.id, r.0, out.selected, [pop[p].id])]
  {
    var p := Parent(bonus, pop);
    var seen := pop[p].(selected := pop[p].selected + 1);
    GainsByScore(pow, out.elo, pop[p].elo, out.score);
    hide Parent, Rated, UpdateElo, Added, Ids, Lineage;
    if !out.prune {
      var r := Rated(pow, out.elo, pop[p].elo, out.score);
      var rated := seen.(elo := r.1);
      assert pop[p := seen][p := rated] == pop[p := rated];
      AddedAppends(pop[p := rated], Record(out.id, r.0, out.selected, [pop[p].id]));
    }
  }

  lemma RatedConserves(pow: real -> real, bonus: (nat, nat) -> real, pop: seq<Record>, out: Outcome)
    requires IsPower(pow) && pop != [] && Ids(pop) && Lineage(pop) && !out.prune
    requires out.selected == 0 && forall i | 0 <= i < |pop| :: pop[i].id != out.id
    ensures var t := Stepped(pow, bonus, pop, out);
            t != [] && Ids(t) && Lineage(t) && Visits(t) == Visits(pop) + 1 && TotalElo(t) == TotalElo(pop) + out.elo
  {
    hide *;
    var p := Parent(bonus, pop);
    var r := UpdateElo(pow, out.elo, pop[p].elo, out.score, 32.0);
    var rated := pop[p].(selected := pop[p].selected + 1).(elo := r.1);
    var child := Record(out.id, r.0, out.selected, [pop[p].id]);
    ChildConserves(pop, p, rated, child);
    assert Stepped(pow, bonus, pop, out) == pop[p := rated] + [child] by { StepIs(pow, bonus, pop, out); }
  }

  lemma ChildConserves(pop: seq<Record>, p: nat, rated: Record, child: Record)
    requires Ids(pop) && Lineage(pop) && p < |pop| && child.parents == [pop[p].id] && child.selected == 0
    requires rated.id == pop[p].id && rated.parents == pop[p].parents && rated.selected == pop[p].selected + 1
    requires forall i | 0 <= i < |pop| :: pop[i].id != child.id
    ensures var t := pop[p := rated] + [child];
            && t != [] && Ids(t) && Lineage(t) && Visits(t) == Visits(pop) + 1
            && TotalElo(t) == TotalElo(pop) - pop[p].elo + rated.elo + child.elo
  {
    hide *;
    SumsUpdate(pop, p, rated);
    SameLineage(pop, p, rated);
    SumsAppend(pop[p := rated], child);
    LineageAppend(pop[p := rated], child, p);
  }

  lemma SameLineage(pop: seq<Record>, p: nat, r: Record)
    requires Ids(pop) && Lineage(pop) && p < |pop| && r.id == pop[p].id && r.parents == pop[p].parents
    ensures Ids(pop[p := r]) && Lineage(pop[p := r])
  {
    var t := pop[p := r];
    assert forall j | 0 <= j < |pop| :: t[j].id == pop[j].id && t[j].parents == pop[j].parents;
  }

  lemma LineageAppend(pop: seq<Record>, child: Record, p: nat)
    requires Ids(pop) && Lineage(pop) && p < |pop| && child.parents == [pop[p].id]
    requires forall i | 0 <= i < |pop| :: pop[i].id != child.id
    ensures Ids(pop + [child]) && Lineage(pop + [child])
  {
    var t := pop + [child];
    forall i, x | 0 <= i < |t| && x in t[i].parents
      ensures exists j :: 0 <= j < i && t[j].id == x
    {
      if i < |pop| {
        var j :| 0 <= j < i && pop[j].id == x;
        assert t[j].id == x;
      } else {
        assert t[p].id == x;
      }
    }
  }

  /** Conservation over every run with fresh, unseen children: each step adds exactly one
      visit, the ratings change only by what the inserted children bring, ids stay distinct
      and every parent is stored before its child. */
  lemma {:induction false} RunConserves(pow: real -> real, bonus: (nat, nat) -> real, pop: seq<Record>,
      outs: seq<Outcome>)
    requires IsPower(pow) && pop != [] && Ids(pop) && Lineage(pop) && FreshRun(pow, bonus, pop, outs)
    ensures var t := Run(pow, bonus, pop, outs);
            && t != [] && Ids(t) && Lineage(t)
            && Visits(t) == Visits(pop) + |outs|
            && TotalElo(t) == TotalElo(pop) + Inserted(outs)
    decreases |outs|
  {
    if outs != [] {
      hide Stepped, Expected;
      StepConserves(pow, bonus, pop, outs[0]);
      RunConserves(pow, bonus, Stepped(pow, bonus, pop, outs[0]), outs[1..]);
    }
  }

  /** The parent of every step is unseen while an unseen candidate is stored, and has the
      greatest rating with its bonus when all are seen. */
  lemma ExploresFirst(bonus: (nat, nat) -> real, pop: seq<Record>)
    requires pop != []
    ensures (exists i :: 0 <= i < |pop| && pop[i].selected == 0) ==> pop[Parent(bonus, pop)].selected == 0
    ensures (forall i | 0 <= i < |pop| :: pop[i].selected > 0) ==>
              var b, n := pop[Parent(bonus, pop)], Visits(pop);
              forall i | 0 <= i < |pop| :: b.elo + bonus(n, b.selected) >= pop[i].elo + bonus(n, pop[i].selected)
  {
    PUcbIsBest(bonus, Visits(pop), pop);
    hide Visits, PUcb;
  }

  /** A chain of records each of which is a parent of the next. */
  ghost predicate Descent(pop: seq<Record>, chain: seq<nat>) {
    && (forall k | 0 <= k < |chain| :: chain[k] < |pop|)
    && (forall k | 0 <= k < |chain| - 1 :: pop[chain[k]].id in pop[chain[k + 1]].parents)
  }

  /** Lineage has no circle: along a chain of descent the positions grow. */
  lemma {:induction false} LineageAcyclic(pop: seq<Record>, chain: seq<nat>)
    requires Ids(pop) && Lineage(pop) && Descent(pop, chain) && |chain| >= 2
    ensures chain[0] < chain[|chain| - 1]
    decreases |chain|
  {
    assert pop[chain[0]].id in pop[chain[0 + 1]].parents;
    var j :| 0 <= j < chain[1] && pop[j].id == pop[chain[0]].id;
    assert j == chain[0];
    if |chain| > 2 { LineageAcyclic(pop, chain[1..]); }
  }
}
