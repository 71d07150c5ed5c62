/// The result `play` returns once the battle is over: win, stall or loss
/// for player 0, and the points the optimisation mode awards.  The engine
/// computes the points in 32-bit unsigned arithmetic, so every difference
/// here wraps modulo 2^32 exactly as it does there.
module Scoring {
  import opened Arith
  import opened Cards
  import opened Board

  /// The optimisation modes whose result `play` treats specially; `Other`
  /// stands for the remaining ones (win rate and the like).
  datatype Mode = Raid | Brawl | BrawlDefense | Campaign | Defense | Other

  /// `Results`: wins, draws (stalls), losses and points of one battle.
  datatype Results = Results(wins: nat, draws: nat, losses: nat, points: nat)

  /// What the scoring reads of a player's deck: `deck_size`, the number of
  /// cards in the deck (`cards.size()`) and the number not yet drawn
  /// (`shuffled_cards.size()`).
  datatype DeckCounts = DeckCounts(deckSize: nat, cards: nat, shuffled: nat)

  /// The cards a player has on the board, assaults and structures, dead or
  /// alive.
  function OnBoard(side: Side): nat
  {
    |side.assaults| + |side.structures|
  }

  /// `evaluate_brawl_score(player)`: 55, plus the opponent's destroyed
  /// cards, plus the player's cards still to draw, less one per eight
  /// turns, in unsigned arithmetic.
  function BrawlScore(sides: seq<Side>, decks: seq<DeckCounts>, turn: nat, player: nat): (r: nat)
    requires |sides| == 2 && |decks| == 2 && player < 2
    ensures r < Modulus
  {
    U32(55 + sides[Opponent(player)].totalCardsDestroyed + decks[player].shuffled - U32(turn + 7) / 8)
  }

  /// The raid damage: 15, plus player 1's cards played (at most its deck
  /// size, one every other turn) less those still on the board, less a
  /// tenth of the raid boss's remaining health per ten points.
  function RaidDamage(sides: seq<Side>, decks: seq<DeckCounts>, turn: nat): (r: nat)
    requires |sides| == 2 && |decks| == 2 && sides[1].commander.maxHp > 0
    ensures r < Modulus
  {
    U32(15 + Min(decks[1].deckSize, U32(turn + 1) / 2) - OnBoard(sides[1])
        - U32(10 * sides[1].commander.hp) / sides[1].commander.maxHp)
  }

  /// The campaign score of a win: 100, less ten per card player 0 played
  /// that is no longer on the board.
  function CampaignScore(sides: seq<Side>, decks: seq<DeckCounts>, turn: nat): (r: nat)
    requires |sides| == 2 && |decks| == 2
    ensures r < Modulus
  {
    U32(100 - 10 * (Min(decks[0].cards, U32(turn + 1) / 2) - OnBoard(sides[0])))
  }

  /// Player 0's commander is dead.
  predicate Lost(sides: seq<Side>)
    requires |sides| == 2
  {
    !IsAlive(sides[0].commander)
  }

  /// Player 1's commander is dead.
  predicate Won(sides: seq<Side>)
    requires |sides| == 2
  {
    !IsAlive(sides[1].commander)
  }

  /// The end of `play`: a loss is checked first, then a win, then a stall
  /// after the turn limit; each is scored as the mode asks.  The battle
  /// must be over (the program asserts it), and a raid divides by the raid
  /// boss's maximum health.
  function Outcome(mode: Mode, sides: seq<Side>, decks: seq<DeckCounts>, turn: nat, turnLimit: nat,
                   maxScore: nat, minScore: nat): (r: Results)
    requires |sides| == 2 && |decks| == 2
    requires Lost(sides) || Won(sides) || turn > turnLimit
    requires mode == Raid ==> sides[1].commander.maxHp > 0
    ensures r.wins + r.draws + r.losses == 1
    ensures r.losses == 1 <==> Lost(sides)
    ensures r.wins == 1 <==> !Lost(sides) && (Won(sides) || mode == BrawlDefense)
    ensures r.draws == 1 <==> !Lost(sides) && !Won(sides) && mode != BrawlDefense
  {
    if Lost(sides) then
      match mode
      case Raid => Results(0, 0, 1, RaidDamage(sides, decks, turn))
      case Brawl => Results(0, 0, 1, 5)
      case BrawlDefense => Results(0, 0, 1, U32(maxScore - BrawlScore(sides, decks, turn, 1)))
      case _ => Results(0, 0, 1, 0)
    else if Won(sides) then
      match mode
      case Brawl => Results(1, 0, 0, BrawlScore(sides, decks, turn, 0))
      case BrawlDefense => Results(1, 0, 0, U32(maxScore - minScore))
      case Campaign => Results(1, 0, 0, CampaignScore(sides, decks, turn))
      case _ => Results(1, 0, 0, 100)
    else
      match mode
      case Defense => Results(0, 1, 0, 100)
      case Raid => Results(0, 1, 0, RaidDamage(sides, decks, turn))
      case Brawl => Results(0, 1, 0, 5)
      case BrawlDefense => Results(1, 0, 0, 62)
      case _ => Results(0, 1, 0, 0)
  }

  /// A loss takes precedence: whenever player 0's commander is dead the
  /// battle is lost, even if player 1's commander died as well.
  lemma LossFirst(mode: Mode, sides: seq<Side>, decks: seq<DeckCounts>, turn: nat, turnLimit: nat,
                  maxScore: nat, minScore: nat)
    requires |sides| == 2 && |decks| == 2 && Lost(sides) && Won(sides)
    requires mode == Raid ==> sides[1].commander.maxHp > 0
    ensures Outcome(mode, sides, decks, turn, turnLimit, maxScore, minScore).losses == 1
    ensures Outcome(mode, sides, decks, turn, turnLimit, maxScore, minScore).wins == 0
  {
  }

  /// Outside the special modes a win is worth 100 points and a loss or a
  /// stall nothing; in defense mode a stall is worth 100.
  lemma PlainPoints(mode: Mode, sides: seq<Side>, decks: seq<DeckCounts>, turn: nat, turnLimit: nat,
                    maxScore: nat, minScore: nat)
    requires |sides| == 2 && |decks| == 2 && (Lost(sides) || Won(sides) || turn > turnLimit)
    requires mode == Other || mode == Defense
    ensures var r := Outcome(mode, sides, decks, turn, turnLimit, maxScore, minScore);
      r.points == (if r.wins == 1 || (r.draws == 1 && mode == Defense) then 100 else 0)
  {
  }

  /// Brawl scoring: a win scores the brawl score, anything else 5.
  lemma BrawlPoints(sides: seq<Side>, decks: seq<DeckCounts>, turn: nat, turnLimit: nat,
                    maxScore: nat, minScore: nat)
    requires |sides| == 2 && |decks| == 2 && (Lost(sides) || Won(sides) || turn > turnLimit)
    ensures var r := Outcome(Brawl, sides, decks, turn, turnLimit, maxScore, minScore);
      r.points == (if r.wins == 1 then BrawlScore(sides, decks, turn, 0) else 5)
  {
  }

  /// Brawl defense: a stall counts as a win worth 62 points, and a loss
  /// scores what the attacker's brawl score leaves of the maximum.
  lemma BrawlDefensePoints(sides: seq<Side>, decks: seq<DeckCounts>, turn: nat, turnLimit: nat,
                           maxScore: nat, minScore: nat)
    requires |sides| == 2 && |decks| == 2 && (Lost(sides) || Won(sides) || turn > turnLimit)
    ensures var r := Outcome(BrawlDefense, sides, decks, turn, turnLimit, maxScore, minScore);
      && (!Lost(sides) && !Won(sides) ==> r == Results(1, 0, 0, 62))
      && (Lost(sides) ==> (r.points + BrawlScore(sides, decks, turn, 1) - maxScore) % Modulus == 0)
  {
  }

  /// Without wrap-around the brawl score is the plain sum: it cannot wrap
  /// in the first 433 turns (the turn penalty stays within 55), and then
  /// every destroyed card and every card left to draw is worth one point.
  lemma BrawlScoreExact(sides: seq<Side>, decks: seq<DeckCounts>, turn: nat, player: nat)
    requires |sides| == 2 && |decks| == 2 && player < 2
    requires turn <= 433
    requires 55 + sides[Opponent(player)].totalCardsDestroyed + decks[player].shuffled < Modulus
    ensures BrawlScore(sides, decks, turn, player) ==
      55 + sides[Opponent(player)].totalCardsDestroyed + decks[player].shuffled - (turn + 7) / 8
    ensures BrawlScore(sides, decks, turn, player) >=
      sides[Opponent(player)].totalCardsDestroyed + decks[player].shuffled
  {
    assert U32(turn + 7) == turn + 7;
  }

  /// The raid damage stays between 5 and 15 plus the cards played when the
  /// raid boss's health is within its maximum and no more cards are on the
  /// board than were played; a dead raid boss gives the full 15 plus.
  lemma RaidDamageBounds(sides: seq<Side>, decks: seq<DeckCounts>, turn: nat)
    requires |sides| == 2 && |decks| == 2 && 0 < sides[1].commander.maxHp < 0x1000_0000
    requires sides[1].commander.hp <= sides[1].commander.maxHp && turn + 1 < Modulus
    requires OnBoard(sides[1]) <= Min(decks[1].deckSize, (turn + 1) / 2) < 0x1000_0000
    ensures var played := Min(decks[1].deckSize, (turn + 1) / 2);
      && 5 + played - OnBoard(sides[1]) <= RaidDamage(sides, decks, turn) <= 15 + played - OnBoard(sides[1])
      && (sides[1].commander.hp == 0 ==> RaidDamage(sides, decks, turn) == 15 + played - OnBoard(sides[1]))
  {
    var hp, maxHp := sides[1].commander.hp, sides[1].commander.maxHp;
    var played := Min(decks[1].deckSize, (turn + 1) / 2);
    assert U32(turn + 1) == turn + 1;
    var h := U32(10 * hp);
    assert h == 10 * hp;
    var q := h / maxHp;
    DivAtMost(h, maxHp, 10);
    assert hp == 0 ==> q == 0;
    var v := 15 + played - OnBoard(sides[1]) - q;
    assert 0 <= v < Modulus;
    assert RaidDamage(sides, decks, turn) == U32(v);
  }

  /// A quotient is at most `k` when the dividend is at most `k` times the
  /// divisor.
  lemma DivAtMost(a: nat, d: nat, k: nat)
    requires d > 0 && a <= k * d
    ensures a / d <= k
  {
    var q := a / d;
    assert q * d <= a;
    assert (k + 1) * d == k * d + d;
    if q > k {
      MulMonotone(k + 1, q, d);
    }
  }

  /// Multiplication by a natural number keeps order.
  lemma MulMonotone(x: nat, y: nat, d: nat)
    requires x <= y
    ensures x * d <= y * d
  {
  }

  /// A campaign win is worth 100 less ten per card lost, within 0 to 100,
  /// as long as at most ten played cards are gone; beyond that the
  /// unsigned difference wraps around to a huge score.
  lemma CampaignScoreRange(sides: seq<Side>, decks: seq<DeckCounts>, turn: nat)
    requires |sides| == 2 && |decks| == 2 && turn + 1 < Modulus
    ensures var lost := Min(decks[0].cards, (turn + 1) / 2) - OnBoard(sides[0]);
      && (0 <= lost <= 10 ==> CampaignScore(sides, decks, turn) == 100 - 10 * lost <= 100)
      && (10 < lost < 0x1000_0000 ==> CampaignScore(sides, decks, turn) >= Modulus - 10 * lost)
  {
    assert U32(turn + 1) == turn + 1;
  }
}
