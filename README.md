# Battle engine of tyrant_optimize, in Dafny

This project models the battle engine in `sim.cpp`, which plays one
two-player card match to its end. Each player has a commander, a row of
assaults and a row of structures, and the players take turns. In a turn:

- the active player's cards count their delays down;
- a drawn card is played;
- battleground effects fire;
- the commander, the structures and the assaults act, each casting its
  activation skills through a skill queue;
- each assault attacks the enemy across from it, the first enemy wall, or
  the enemy commander;
- the turn ends: poison, refresh, clearing of the turn's statuses, and
  removal of the dead.

The match ends when a commander dies or the turn limit passes, and `play`
scores it for the optimisation mode.

Layout, from values to the mutable battle:

- `arith.dfy` (`Arith`): saturating subtraction, `min`/`max`, the
  rounded-up half, and unsigned 32-bit wrap-around.
- `wrappers.dfy`: `Option`.
- `skills.dfy` (`Skills`): the skill enumeration and its codes,
  `SkillSpec`, and `apply_evolve`/`apply_enhance`/`apply_sabotage`.
- `cards.dfy` (`Cards`): the per-card status record (`CardStatus`), and on
  it:
  - `attack_power`, `CardStatus::skill`, `add_hp`, the health part of
    `remove_hp`;
  - weaken, sunder, rush, enhance, evolve's offset swap, `cooldown_skills`.
- `board.dfy` (`Board`):
  - the two sides' storages, with a `CardStatus*` modelled as an
    address (player, storage, position);
  - `left_assault`, `right_assault`, `adjacent_assaults`, `remove_dead`.
- `handlers.dfy` (`Handlers`): the remaining `perform_skill<...>` status
  effects, the damage formula of `modify_attack_damage`, `counter_damage`,
  the high-water damage-dependent statuses, corrosion, berserk, leech and
  the turn-end clearings.
- `targeting.dfy` (`Targeting`): `select_fast` and `select_targets`, with a
  partial Fisher–Yates draw over a supplied random stream and a sort by
  position.
- `effects.dfy` (`Effects`): `remove_hp` on the board, `finalize_action`
  (barrier), and the on-death effects of `prepend_on_death` (Avenge,
  Virulence, Revenge).
- `dispatch.dfy` (`Dispatch`):
  - the skill as its caster performs it (evolve, sabotage, enhance) and
    when it is dropped;
  - the skill table;
  - the per-target effects of allied and hostile skills, evade, payback,
    revenge and mimic.
- `combat.dfy` (`Combat`): the pieces of `PerformAttack` and `attack_phase`
  (legion, coalition, fortification armor, counterflux, heroism, devour,
  swipe, drain, the attack target), Flurry's cooldowns, and the corrosion
  at the end of an assault's action.
- `turns.dfy` (`Turns`): the loops of `turn_start_phase` and
  `turn_end_phase` and the final `remove_dead`, each proved against a
  function on the board.
- `deploy.dfy` (`Deploy`): `PlayCard`, Allegiance and the Stasis stack of a
  played card.
- `scoring.dfy` (`Scoring`): `evaluate_brawl_score` and the mode-specific
  result at the end of `play`.
- `field.dfy` (`Battle`): the class `Field`, the battle state updated in
  place, with one method for each operation of the engine:
  - damage and death, the on-death pass;
  - the skill queue (`resolve_skill`) and the two skill drivers
    (`perform_targetted_allied_fast` and `perform_targetted_hostile_fast`);
  - the attack, the actions of a unit (`evaluate_skills`) and the phases
    of a turn;
  - `play` and its result.

Each `Field` method is proved against a function of the old state where
one exists. Otherwise it is proved against the invariant it keeps:
- the board stays well formed and of the same shape;
- the battle has ended exactly when a commander is dead;
- the killed units and the queued casters are on the board;
- the skill queue only ever gains support entries in front.

`resolve_skill` is proved to terminate and to empty the queue.

## Model

| member | source | states |
|---|---|---|
| Arith.HalfUp | sim.cpp:2387 | half rounded up is zero exactly for zero, and at least half of the value |
| Arith.U32 | sim.cpp:2216-2221 | unsigned 32-bit result: below 2^32, equal to the value when it fits, congruent to it otherwise |
| Skills.ApplyEvolve | sim.cpp:344-349 | the skill id moves by the offset and nothing else changes |
| Skills.ApplyEnhance | sim.cpp:351-356 | X grows by the enhanced value, nothing else changes |
| Skills.ApplySabotage | sim.cpp:358-363 | X never rises and never underflows: it is 0 exactly when the sabotage covers it, otherwise lowered by exactly the sabotage |
| Skills.SabotageUndoesEnhance | sim.cpp:351-363 | sabotage by v after enhance by v restores the skill |
| Skills.SabotageComposes | sim.cpp:358-363 | two sabotages equal one by their sum |
| Skills.EvolveRoundTrip | sim.cpp:344-349 | evolving by an offset and by its opposite restores the skill |
| Board.Opponent | sim.cpp:339-342 | the opponent is the other of the two players |
| Board.AliveBetweenSpec | sim.cpp:87-102 | the living positions of a range are listed exactly once each, ascending |
| Board.Neighbours | sim.cpp:87-102 | exactly the living assaults other than the unit within n places of it, in ascending order |
| Board.LeftAssault | sim.cpp:53-65 | present exactly when n places to the left exist and that assault is alive, and then it is that position |
| Board.RightAssault | sim.cpp:70-82 | present exactly when n places to the right exist and that assault is alive, and then it is that position |
| Board.AdjacentAssaults | sim.cpp:87-102 | the two loops over `left_assault` and `right_assault` return exactly `Neighbours` |
| Board.LeftOf | sim.cpp:90-95 | the left loop returns the living positions from n places left up to the unit |
| Board.RightOf | sim.cpp:96-101 | the right loop returns the living positions just right of the unit up to n places |
| Board.RemoveDead | sim.cpp:732-744 | every kept status is alive and the result is a sub-multiset of the storage |
| Board.RemoveDeadSingle | sim.cpp:732-744 | a single status is kept exactly when it is alive |
| Board.RemoveDeadAppend | sim.cpp:732-744 | the survivors of a concatenation are those of the first part followed by those of the second, so the survivors keep their order |
| Board.RemoveDeadKeepsLiving | sim.cpp:732-744 | every living status survives `remove_dead` |
| Board.RemoveDeadLiving | sim.cpp:732-744 | a storage without dead statuses is left as it is |
| Board.RemoveDeadFits | sim.cpp:732-744 | the kept statuses still fit their storage |
| Cards.NewStatus | sim.cpp:176-210 | a fresh status takes delay, faction, attack and health from the card; every counter, flag and per-skill array starts at zero |
| Cards.SkillValue | sim.cpp:148-154 | the skill value lies between the base plus enhance less the sabotage and the base plus enhance, and equals the latter when not sabotaged or not X-based |
| Cards.AttackPower | sim.cpp:212-215 | attack power is at most attack plus rally, loses at most the weakening, corrosion and derally, and is attack plus rally when none applies |
| Cards.AddHp | sim.cpp:745-748 | healing never lowers health and never passes the maximum; health becomes hp+v or the maximum, and nothing else changes |
| Cards.LoseHp | sim.cpp:699 | health is lowered by the damage, saturating: zero exactly when the damage covers it; nothing else changes |
| Cards.Weaken | sim.cpp:1659-1669 | attack power drops by exactly x, not below zero; derally and weakening only grow, together by at most x; nothing else changes |
| Cards.WeakenSplit | sim.cpp:1662-1668 | the split of x between taking back rally and weakening uses at most x, and lowers attack power by x, not below zero |
| Cards.WeakenArith | sim.cpp:1662-1668 | the attack-power arithmetic of the derally step followed by the capped weakening |
| Cards.Sunder | sim.cpp:1672-1676 | the target is sundered and its attack power drops by x, not below zero |
| Cards.Rush | sim.cpp:1636-1638 | the delay drops by max(x, 1), not below zero; a waiting card always gets closer |
| Cards.EnhanceSkill | sim.cpp:1547-1550 | only the enhance values change, and the status stays valid |
| Cards.EnhanceRaisesSkill | sim.cpp:1547-1550 | enhancing s by x raises the enhance bonus of every skill reading s's slot by exactly x, and leaves slots, base values and every other skill's bonus alone |
| Cards.SwapPrimary | sim.cpp:1555-1558 | the two skills exchange their primary slots, the offsets stay valid and injective, and every other skill keeps its slot |
| Cards.Redirect | sim.cpp:1559-1560 | a skill queued from either old slot now resolves as the other skill |
| Cards.Evolve | sim.cpp:1553-1561 | s and s2 exchange slots; a skill queued from s's old slot resolves as s2, and one from s2's old slot resolves as s |
| Cards.EvolveTwiceRestoresOffsets | sim.cpp:1553-1561 | applying the same evolve twice restores the primary offsets |
| Cards.CooldownSkills | sim.cpp:749-760 | every listed skill's cooldown drops by one per listing, not below zero; other skills and fields are unchanged (equal to `CooledDown`) |
| Combat.LegionCount | sim.cpp:1121-1122 | the count is at most 2: 0 exactly when neither neighbour is a living ally of the faction, 2 exactly when both are |
| Combat.LivingFactions | sim.cpp:1135-1142 | exactly the factions of the living assaults, at most one per assault |
| Combat.MaxArmor | sim.cpp:1184-1187 | the result is the largest of the start value and the neighbours' armor |
| Combat.DefenderArmor | sim.cpp:1181-1188 | the defender's own armor, raised under Fortification (assaults only) to at least every living neighbour's armor |
| Combat.EnvAt | sim.cpp:1113-1188 | what `modify_attack_damage` reads: legion count at most 2, factions at most the assaults, and armor at least the defender's own |
| Combat.BrigadeHeal | sim.cpp:1117-1128 | an active attacker heals its legion bonus; any heal needs legion, an unsundered attacker and a living ally beside it |
| Combat.Brigaded | sim.cpp:1214-1219 | Brigade heals the attacker by at most the brigade value, and changes nothing when off or zero |
| Combat.FirstWall | sim.cpp:935-946 | the first living structure with wall, or none exactly when no structure is a living wall |
| Combat.UnsignedShare | sim.cpp:1021 | for a positive value the unsigned expression is the rounded-up share |
| Combat.CounterfluxShareNeverWraps | sim.cpp:999-1021 | a defender in the counter branch has the counter skill, so its counter value is positive and the unsigned share equals the rounded-up share |
| Combat.CounterfluxGain | sim.cpp:1017-1027 | the defender heals its counter share and, unless sundered, gains it in attack |
| Combat.HeroismGain | sim.cpp:1072-1080 | the attacker gains its valor in attack exactly when the defender died and it is not sundered |
| Combat.DevourGain | sim.cpp:1082-1098 | health and maximum health rise together (the damage taken stays); a positive leech plus refresh raises health, and attack unless sundered, by its share; zero changes nothing |
| Combat.AssaultGains | sim.cpp:1069-1098 | after a hit on an assault only the attacker's health, maximum health and attack change |
| Combat.Aftermath | sim.cpp:1033-1098 | only health, maximum health, attack and corrosion rate change; the rate becomes the larger of its old value and the defender's corrosive |
| Combat.SwipeDamage | sim.cpp:1338-1340 | swipe damage is swipe plus drain against the defender as a hit that respects protection; at most swipe plus drain plus enfeeble |
| Combat.SwipedEffects | sim.cpp:1336-1346 | each aimed neighbour loses the swipe damage, and every other unit keeps its status |
| Combat.SwipedKeeps | sim.cpp:1336-1346 | units the swipe does not aim at keep their status |
| Combat.SwipedHits | sim.cpp:1336-1346 | each aimed neighbour loses the swipe damage once |
| Combat.Drained | sim.cpp:1347-1352 | drain heals at most the total dealt and never past the maximum, exactly the total when it fits; no drain or an undamaged attacker changes nothing |
| Combat.AttackTarget | sim.cpp:1301-1329 | the target is the living assault across, else the first living wall, else the enemy commander |
| Combat.FlurryCooled | sim.cpp:563-570 | only cooldowns change, and the status stays valid |
| Combat.FlurryCooledKeeps | sim.cpp:563-570 | a cooldown that no flurry-evolved skill names is unchanged |
| Combat.FlurryCooledSets | sim.cpp:563-570 | a flurry-evolved skill starts its own cooldown unless a later listing of that skill overrides it |
| Combat.ActionEnded | sim.cpp:2501-2516 | the assault has attacked; with corrosion and no attack the corrosion wears off, otherwise the rate stays |
| Combat.ActionEndedAttackPower | sim.cpp:2501-2516 | corrosion after an attack lowers attack power by at most the rate; wearing off never lowers it |
| Dispatch.Modified | sim.cpp:472-487 | the performed id is the evolved one; X is the queued X plus enhance, with the sabotage taken off first (saturating) exactly when the evolved skill is X-based |
| Dispatch.DroppedIff | sim.cpp:489-495 | a skill is dropped exactly when it is X-based after evolve, the sabotage covers its X, and there is no enhance bonus |
| Dispatch.UnsabotagedNeverDropped | sim.cpp:479-495 | without sabotage a positive X is never dropped |
| Dispatch.ModifiedIsSkillValue | sim.cpp:472-487 | an unevolved skill queued at its base value is performed at `CardStatus::skill`'s value |
| Dispatch.UnevolvedKeepsSkill | sim.cpp:474-477 | without evolved offsets the skill keeps its id |
| Dispatch.HandlerOf | sim.cpp:2631-2651 | the hostile entry exactly for the hostile activation skills, the rush entry exactly for rush |
| Dispatch.HandlerIffActivation | sim.cpp:2631-2651 | the table has an entry exactly for the activation skills |
| Dispatch.TargetPlayer | sim.cpp:1747-1820 | hostile skills aim at the opponent, the others at the caster's side |
| Dispatch.TargetKind | sim.cpp:1747-1820 | siege aims at structures, every other skill at assaults |
| Dispatch.StartCooldown | sim.cpp:1852-1855 | the cooldown of one skill becomes c, all others are unchanged |
| Dispatch.AlliedEffect | sim.cpp:1546-1643 | each allied effect keeps the target's card, owner and index; a skill without an allied handler changes nothing; heal and mend give the capped health, protect adds X to the protected value, rush lowers the delay by max(X, 1), rally raises attack power by at most X; the per-skill frames are the `Allied…Frame` lemmas |
| Dispatch.AlliedEnhanceFrame | sim.cpp:1547-1550 | enhance raises only the enhance bonus of the slot its skill reads, by X; every other slot and field is kept |
| Dispatch.AlliedEvolveFrame | sim.cpp:1553-1561 | evolve changes only the two offset arrays, and exchanges the slots its two skills read |
| Dispatch.AlliedHealFrame | sim.cpp:1564-1575 | heal changes only health (capped) and protection, which rises by half of X rounded up exactly for an assault caster under Zealot's Preservation |
| Dispatch.AlliedMendFrame | sim.cpp:1584-1587 | mend changes only health, to min(health + X, maximum health) |
| Dispatch.AlliedOverloadFrame | sim.cpp:1604-1607 | overload sets the overloaded flag and nothing else |
| Dispatch.AlliedProtectFrame | sim.cpp:1610-1613 | protect adds X to protection and nothing else |
| Dispatch.AlliedRallyFrame | sim.cpp:1616-1619 | rally adds X to the rally bonus and nothing else |
| Dispatch.AlliedEnrageFrame | sim.cpp:1622-1633 | enrage adds X to the enrage bonus and, under Furiosity, heals a target that can be healed by X; nothing else changes |
| Dispatch.AlliedRushFrame | sim.cpp:1636-1643 | rush changes only the delay and the attack; a target whose delay stays positive keeps its attack |
| Dispatch.HostileEffect | sim.cpp:1540-1676 | health never changes; enfeeble rises by X; a jammed target cannot act; weaken and sunder lower attack power by X (sunder also marks it); other skills leave the target alone |
| Dispatch.HostileDamage | sim.cpp:1589-1656 | siege deals X; strike at most X plus enfeeble, exactly that from an overloaded caster; mortar X on structures and at most half X rounded up plus enfeeble on assaults; other skills none |
| Dispatch.SpendEvade | sim.cpp:1838-1847 | evading spends exactly one evade |
| Dispatch.EvadeSpends | sim.cpp:1838-1847 | a target evades at most its evade value's worth of skills |
| Dispatch.RevengeTarget | sim.cpp:2084-2115 | case 0 is the living left neighbour of the caster, case 1 the caster, case 2 the living right neighbour |
| Dispatch.UsePayback | sim.cpp:2151-2155 | one payback is used |
| Dispatch.Uninhibit | sim.cpp:1960-1967 | the target loses exactly one inhibit |
| Dispatch.Mimicked | sim.cpp:1711-1716 | mimic performs the chosen skill at mimic's X plus the caster's enhance, for all factions, without cooldown |
| Dispatch.MimicChoice | sim.cpp:1701-1708 | the choice is an index below the count; a single candidate is chosen without a draw |
| Dispatch.MimicNeverNests | sim.cpp:1684-1699 | a mimickable skill is an activation skill and never mimic itself |
| Dispatch.AlliedOnBoard | sim.cpp:1958-1974 | only caster and target change, commanders' health and destroyed counts stay; an inhibited target of a caster that is not overloaded loses exactly one inhibit |
| Dispatch.AlliedApplied | sim.cpp:1851 | only the target changes; board shape, commanders' health and destroyed counts stay |
| Dispatch.WithCooldown | sim.cpp:1852-1855 | only the caster changes; board shape, commanders' health and destroyed counts stay |
| Dispatch.AlliedAll | sim.cpp:1958-1974 | only the targets and the caster change; board shape, commanders' health and destroyed counts stay |
| Dispatch.HealableNeighbours | sim.cpp:1733-1745 | exactly the healable units among the living neighbours within reach |
| Dispatch.AlliedAllNext | sim.cpp:1958-1974 | one more target is one more `AlliedOnBoard` step |
| Handlers.HitDamage | sim.cpp:1651-1656 | the hit is base plus enfeeble less protection (none when protection is ignored), saturating |
| Handlers.Enfeeble | sim.cpp:1541-1544 | enfeeble rises by x, nothing else changes |
| Handlers.EnfeebleRaisesHits | sim.cpp:1541-1544 | later hits become between 0 and x harder, exactly x once through protection |
| Handlers.Protect | sim.cpp:1610-1613 | protection rises by x, nothing else changes |
| Handlers.ProtectAbsorbsHits | sim.cpp:1610-1613 | protection by x absorbs up to x of every later hit |
| Handlers.Rally | sim.cpp:1616-1619 | attack power rises by at most x, by exactly x when the weakened attack covers it |
| Handlers.Heal | sim.cpp:1564-1575 | health as `add_hp`; under Zealot's Preservation an assault caster also protects by half of x, rounded up |
| Handlers.Enrage | sim.cpp:1622-1633 | the berserk base rises by x; under Furiosity a damaged target also heals x up to its maximum |
| Handlers.Jam | sim.cpp:1578-1581 | the target can no longer act, now or next turn; nothing else changes |
| Handlers.Overload | sim.cpp:1604-1607 | the target is overloaded |
| Handlers.Strengthen | sim.cpp:387-390 | health and maximum health rise by v, and attack too unless sundered |
| Handlers.Valor | sim.cpp:1864-1894 | valor adds its value exactly when unsundered and the living assault across has more attack power |
| Handlers.Denominator | sim.cpp:1020 | the effect's value, or the default when zero; never zero |
| Handlers.Share | sim.cpp:1021 | the rounded-up share: positive, at most v, and share times divisor covers v |
| Handlers.LegionBonus | sim.cpp:1117-1128 | a bonus is paid exactly when the attacker is active, not sundered, has legion and a qualifying neighbour; it is the legion count times the legion value |
| Handlers.CoalitionBonus | sim.cpp:1131-1146 | the coalition value per distinct living allied faction; positive exactly when both are |
| Handlers.ModifyAttackDamage | sim.cpp:1104-1220 | no attack gives no damage; the damage never exceeds the attack plus the bonuses, which a sundered attacker does not get |
| Handlers.AttackDamageFormula | sim.cpp:1178-1205 | damage is the boosted damage less (armor + protection less pierce + rupture), saturating |
| Handlers.SunderedGainsNoBonus | sim.cpp:1113-1177 | a sundered attacker deals at most its attack power, and exactly that when nothing absorbs |
| Handlers.ProtectionNeverRaisesDamage | sim.cpp:1194-1205 | more protection on the defender never raises the damage |
| Handlers.CounterDamage | sim.cpp:930-934 | counter plus the attacker's enfeeble less the attacker's protection: zero exactly when the protection covers it, otherwise that difference |
| Handlers.DamageDependent | sim.cpp:1243-1281 | poison (max of poison and venom), inhibit and sabotage each rise to the attacker's value only when strictly greater |
| Handlers.DamageDependentIdempotent | sim.cpp:1243-1281 | a second hit by the same attacker changes nothing |
| Handlers.Corrode | sim.cpp:1033-1042 | the corrosion rate rises to the corrosive value only when strictly greater |
| Handlers.Berserk | sim.cpp:1044-1067 | a sundered attacker or one without berserk is unchanged; otherwise attack rises by berserk, and under Enduring Rage health (capped at the maximum) and protection rise by the rounded-up share of berserk over the rage value (2 when zero); without it health and protection stay; only attack, health and protection change |
| Handlers.Leech | sim.cpp:1283-1298 | a healable attacker heals min(damage, leech), capped at its maximum; with no leech, no damage or no room to heal, health stays; only health changes |
| Handlers.Reach | sim.cpp:1736-1737 | the reach of mend and of swipe and drain is 2 exactly under Critical Reach, otherwise 1 |
| Handlers.ClearDefender | sim.cpp:840-858 | enfeeble, protection, offsets, enhance, evade and payback counts reset, nothing else changes |
| Handlers.ClearAttacker | sim.cpp:904-914 | jam, rally, enrage, derally, sunder, weaken, inhibit, sabotage, overload and step reset, so attack power is attack less corrosion |
| Targeting.Where | sim.cpp:36-48 | exactly the positions satisfying the filter |
| Targeting.MimickableSkills | sim.cpp:1684-1699 | exactly the indices of the skills that can be mimicked |
| Targeting.Mask | sim.cpp:1720-1730 | entry p says whether card p may be targeted (faction filter and the skill's own test) |
| Targeting.SelectionSpec | sim.cpp:36-48 | a position is selected exactly when eligible, ascending, without repeats |
| Targeting.SelectFast | sim.cpp:1720-1730 | the loop selects exactly `Where` of the mask |
| Targeting.Sort | sim.cpp:1937-1941 | the result is non-decreasing and a permutation of the input |
| Targeting.Rand | sim.cpp:1934 | a draw in lo..hi that consumes one number of the stream |
| Targeting.SwapKeepsMultiset | sim.cpp:1932-1935 | the shuffle's swap keeps the multiset of candidates |
| Targeting.SelectTargets | sim.cpp:1896-1947 | all candidates are kept for all, mend or too few; otherwise exactly max(n,1) distinct candidates, sorted by position when more than one |
| Deploy.Placed | sim.cpp:602-626 | a valid fresh status of the card, owned by the player at the position, at full health, with no step; attack is the card's, or for a card without delay that plus valor |
| Deploy.Added | sim.cpp:605-607 | the status is appended to the right storage of the player; every earlier unit, both commanders, the destroyed counts and the other player are unchanged |
| Deploy.Allegiant | sim.cpp:2262-2275 | changes exactly a living assault with allegiance of the played faction: health and maximum health rise by allegiance (damage kept), attack too unless sundered |
| Deploy.AllegiantAll | sim.cpp:2263-2275 | each assault reacts as `Allegiant` |
| Deploy.StasisShare | sim.cpp:2339-2360 | at least the unit's own stasis, exactly that without Temporal Backlash |
| Deploy.Shares | sim.cpp:2324-2362 | only units of the faction contribute, each its share |
| Deploy.StasisFrom | sim.cpp:2324-2362 | the stack is zero when no unit of the faction contributes |
| Deploy.StasisFromBound | sim.cpp:2324-2362 | each unit of the faction contributes its whole share |
| Deploy.StackedStasis | sim.cpp:2313-2362 | always at least the stacks of the assaults and structures; for the commander's own faction at least the commander's stasis plus both stacks; for another faction exactly the two stacks |
| Deploy.NoStasisWithoutSource | sim.cpp:2313-2362 | units of the faction without stasis stack nothing |
| Deploy.StasisFromAppend | sim.cpp:2324-2338 | appending a unit adds its share when of the faction |
| Deploy.PlayedKeepsMark | sim.cpp:2339-2377 | a played assault that marks its faction stacks at least its own positive share |
| Scoring.BrawlScore | sim.cpp:2213-2222 | the brawl score in unsigned arithmetic, below 2^32 |
| Scoring.RaidDamage | sim.cpp:2533-2536 | the raid damage in unsigned arithmetic, below 2^32 |
| Scoring.CampaignScore | sim.cpp:2593-2597 | the campaign score in unsigned arithmetic, below 2^32 |
| Scoring.Outcome | sim.cpp:2556-2628 | exactly one of win, stall, loss; a loss exactly when player 0 lost; a stall exactly when neither commander died, except that brawl defense counts it a win |
| Scoring.LossFirst | sim.cpp:2556-2575 | a dead player-0 commander is a loss even if both died |
| Scoring.PlainPoints | sim.cpp:2556-2624 | a plain win is worth 100, a loss or stall 0, a defense stall 100 |
| Scoring.BrawlPoints | sim.cpp:2563-2612 | a brawl win scores the brawl score, anything else 5 |
| Scoring.BrawlDefensePoints | sim.cpp:2564-2618 | a stall is a win worth 62; a loss scores the maximum less the attacker's (player 1's) brawl score, modulo 2^32 |
| Scoring.BrawlScoreExact | sim.cpp:2213-2222 | without overflow, 55 plus cards destroyed plus cards still to draw less the turn eighths rounded up; never below cards destroyed plus cards still to draw |
| Scoring.RaidDamageBounds | sim.cpp:2533-2536 | between 5 and 15 plus the cards played less those on the board; the top value when the boss is dead |
| Scoring.CampaignScoreRange | sim.cpp:2593-2597 | 100 less ten per lost card for at most ten lost cards; more losses wrap around |
| Turns.StartAssault | sim.cpp:774-789 | the assault learns its position, keeps card and health; a waiting card counts down (gaining valor as it becomes active); an active one cools down its skills |
| Turns.StartStructure | sim.cpp:800-810 | the structure learns its position; a waiting one counts down, an active one cools down its skills |
| Turns.TurnStartedAt | sim.cpp:761-837 | each unit still fits, knows its position, keeps card and health; the waiting player's units change only their position |
| Turns.TurnStartedActive | sim.cpp:768-812 | `TurnStartedAt` for the active player's units |
| Turns.TurnStartedWaiting | sim.cpp:813-836 | `TurnStartedAt` for the waiting player's units |
| Turns.TurnStartedBoard | sim.cpp:761-837 | the board stays well formed, indexed, of the same shape; no health or card changes; the waiting player's units only learn positions; destroyed counts stay |
| Turns.EndDefender | sim.cpp:840-858 | a living waiting assault is cleared; a dead one is untouched |
| Turns.EndStructure | sim.cpp:859-871 | a living waiting structure may evade again; a dead one is untouched |
| Turns.EndedInactiveBoard | sim.cpp:840-871 | the board stays well formed, same shape; no health, card or position changes; commanders and the other player untouched |
| Turns.Refreshed | sim.cpp:883-888 | heals exactly when refresh is positive and the unit is damaged, by refresh up to the maximum |
| Turns.PoisonDamage | sim.cpp:889-892 | zero unless poisoned; at most poison plus enfeeble, less exactly the protection when it does not cover it |
| Turns.AttackerEndedEffects | sim.cpp:878-915 | the assault refreshes, loses its poison damage and is cleared; it dies exactly when the damage reaches its refreshed health |
| Turns.ActiveEnded | sim.cpp:873-916 | the board stays well formed and of the same shape; structures and the waiting player's assaults are untouched |
| Turns.AttackerEndedOthers | sim.cpp:878-915 | every other unit is left alone, except player 0's commander (VIP loss) |
| Turns.CompactedWellFormed | sim.cpp:922-925 | after `remove_dead` the board is well formed |
| Turns.CompactedNoDead | sim.cpp:922-925 | after `remove_dead` no assault or structure is dead |
| Turns.CompactedLiving | sim.cpp:922-925 | a board without dead units is left as it is |
| Turns.CompactedIdempotent | sim.cpp:922-925 | a second `remove_dead` removes nothing |
| Turns.StartAssaults | sim.cpp:768-790 | the loop starts each assault as `StartAssault` at its position |
| Turns.StartAssaultAt | sim.cpp:774-788 | the loop body computes `StartAssault` at position i |
| Turns.StartStructures | sim.cpp:794-812 | the loop starts each structure as `StartStructure` at its position |
| Turns.Reindex | sim.cpp:813-836 | the loop gives each status its position |
| Turns.EndDefenders | sim.cpp:841-858 | the loop ends each assault as `EndDefender` |
| Turns.EndStructures | sim.cpp:860-871 | the loop ends each structure as `EndStructure` |
| Effects.RevengeEntries | sim.cpp:435-445 | under Revenge two support entries per killed unit, a heal then a rally by its commander; none otherwise |
| Effects.RevengeEntriesPrefix | sim.cpp:447 | what is queued goes in front as support entries |
| Effects.CountDestroyed | sim.cpp:722 | only the owner's destroyed count rises, by one |
| Effects.BuryEffects | sim.cpp:719-728 | only the owner's count rises by one; player 0's commander dies exactly when a VIP card was lost |
| Effects.HitEffects | sim.cpp:694-730 | the unit loses dmg (saturating); its owner's count rises when it dies; VIP loss kills player 0's commander; nothing else changes |
| Effects.Gain | sim.cpp:130-137 | a positive gain exactly for a living barrier unit hit at least once |
| Effects.FinalizedAt | sim.cpp:121-139 | each unit gains its barrier protection and nothing else changes |
| Effects.FinalizeDone | sim.cpp:123-138 | once every hit unit is visited the board is the finalized one |
| Effects.Avenged | sim.cpp:383-391 | only attack, maximum health and health change, and health never drops |
| Effects.AvengedValues | sim.cpp:383-391 | maximum health and health rise by the avenge value, attack too unless sundered |
| Effects.AvengeAllSpec | sim.cpp:381-392 | each listed neighbour is avenged once, every other assault is untouched |
| Effects.AvengeFirstAt | sim.cpp:381-392 | after the first k neighbours avenge, an assault is avenged once if it is one of them and unchanged otherwise |
| Effects.AvengeAssaults | sim.cpp:381-392 | the loop over the neighbours yields `AvengeAll` of the assaults |
| Effects.AvengeFirstSpec | sim.cpp:381-392 | exactly the first k neighbours are avenged |
| Effects.AvengeAllLiving | sim.cpp:381-392 | only living neighbours change and none dies or revives |
| Effects.RunStart | sim.cpp:396-408 | a death not following the previous one starts a new run whose left victim is the living left neighbour |
| Effects.PoisonLivingSpec | sim.cpp:422-431 | only the assault at i changes, only when alive, gaining v poison |
| Effects.VirulentSteps | sim.cpp:409-431 | virulence is the left spread followed by the right spread of the stack |
| Effects.VirulentLiving | sim.cpp:394-433 | only living assaults change and the spread stays consistent |
| Effects.OnDeathStep | sim.cpp:376-434 | one killed unit's Avenge and Virulence keep the board well formed and change only living assaults |
| Effects.OnDeathFrom | sim.cpp:376-446 | the on-death effects keep the board well formed and change only living assaults |
| Effects.OnDeath | sim.cpp:365-449 | only living assaults change |
| Battle.Field.constructor | sim.cpp:2227-2233 | a fresh battle on the given board: player 0 active, turn 1, play-card phase, not ended, empty queue, killed list and damage counts |
| Battle.Field.MarkKilled | sim.cpp:719-723 | the unit joins the killed list and its owner's count rises |
| Battle.Field.LoseVip | sim.cpp:724-728 | player 0's commander drops to zero health and the battle ends; nothing else changes |
| Battle.Field.Kill | sim.cpp:719-728 | `Bury` of the unit; killed list grows; ends exactly on a VIP loss |
| Battle.Field.CountBarrierHit | sim.cpp:700-705 | a barrier unit's hit is counted exactly outside the end phase; nothing else changes |
| Battle.Field.RemoveHp | sim.cpp:694-730 | the board becomes `Hit`; killed grows exactly when the unit dies; ends exactly on a VIP loss |
| Battle.Field.Damage | sim.cpp:696-705 | the unit loses the damage; reports exactly whether it died; barrier hits are counted |
| Battle.Field.RemoveCommanderHp | sim.cpp:953-964 | the commander loses dmg (saturating); the battle ends when its health reaches zero |
| Battle.Field.PrepareAction | sim.cpp:115-118 | the damage counts are emptied, nothing else changes |
| Battle.Field.BarrierProtect | sim.cpp:123-138 | one visit of the finalizing loop |
| Battle.Field.FinalizeAction | sim.cpp:121-139 | the board becomes `Finalized` |
| Battle.Field.AvengeOne | sim.cpp:383-391 | the neighbour becomes `Avenged` |
| Battle.Field.Avenge | sim.cpp:380-392 | the living neighbours of the dead unit become `Avenged` |
| Battle.Field.AvengeEach | sim.cpp:381-392 | the board afterwards is the player's assaults replaced by `AvengeAll` of them, nothing else changes |
| Battle.Field.Poison | sim.cpp:416 | the unit becomes `AddPoison` |
| Battle.Field.SpreadPoison | sim.cpp:393-433 | the assaults become `Virulent`; returns the continued spread |
| Battle.Field.OnDeathOne | sim.cpp:378-434 | the board becomes `OnDeathStep` |
| Battle.Field.PrependOnDeath | sim.cpp:365-449 | the board becomes `OnDeath`; the killed list is emptied; Revenge's entries go in front of the queue |
| Battle.Field.QueueRevenge | sim.cpp:435-448 | Revenge's entries go in front; killed emptied |
| Battle.Field.SetCooldown | sim.cpp:1852-1855 | the unit's cooldown for the skill is set |
| Battle.Field.Candidates | sim.cpp:1896-1913 | the player and storage the skill aims at (any storage for mortar); candidates are positions in it; for mend exactly the healable living assaults within reach of the caster's index (0 for a commander) |
| Battle.Field.Targets | sim.cpp:1896-1947 | targets are units of the aimed player and storage |
| Battle.Field.Consume | sim.cpp:1934 | the stream is advanced |
| Battle.Field.AlliedOn | sim.cpp:1958-1974 | the board becomes `AlliedOnBoard`; stopped exactly when inhibited and not overloaded |
| Battle.Field.ApplyAllied | sim.cpp:1851 | the board becomes `AlliedApplied` |
| Battle.Field.Cooldown | sim.cpp:1852-1855 | the board becomes `WithCooldown` |
| Battle.Field.AlliedTargets | sim.cpp:1957-1974 | the loop computes `AlliedAll` |
| Battle.Field.AlliedNext | sim.cpp:1958-1974 | one step of the allied loop |
| Battle.Field.AlliedFast | sim.cpp:1949-2001 | without Divert the board becomes `AlliedAll` over the drawn targets |
| Battle.Field.RushFast | sim.cpp:2003-2018 | a non-commander that already tried rush changes nothing; afterwards it has tried |
| Battle.Field.PerformHostile | sim.cpp:1540-1716 | status effects land as `HostileEffect`, damage as `Hit` of `HostileDamage` |
| Battle.Field.MimicOn | sim.cpp:1678-1717 | with nothing to mimic nothing changes |
| Battle.Field.HostileOn | sim.cpp:1822-1862 | performed exactly when the target does not evade; an evading target spends one evade |
| Battle.Field.SpendEvadeAt | sim.cpp:1838-1847 | the target becomes `SpendEvade` |
| Battle.Field.PerformCooled | sim.cpp:1851-1856 | the board keeps its shape; the queue only gains support entries in front |
| Battle.Field.HostileStep | sim.cpp:2034-2059 | a paybacker is only collected for non-mimic skills of an assault caster |
| Battle.Field.HostileTargets | sim.cpp:2031-2060 | the paybackers are on the board; no drop without Turning Tides |
| Battle.Field.StrikeBack | sim.cpp:2117-2143 | a skipped strike changes nothing |
| Battle.Field.DivertOnce | sim.cpp:1981-1999 | one Divert retry keeps the board's shape, the records and the clock |
| Battle.Field.Divert | sim.cpp:1975-2000 | the Divert retries keep the board's shape, the records and the clock |
| Battle.Field.TurningTidesRally | sim.cpp:2062-2068 | Turning Tides' rally keeps the board's shape, the records and the clock |
| Battle.Field.SpendPayback | sim.cpp:2151-2163 | spending a payback keeps the board's shape, the records and the clock |
| Battle.Field.RevengeCase | sim.cpp:2084-2150 | one revenge target: the board keeps its shape, the queue only gains support entries in front |
| Battle.Field.RevengeAll | sim.cpp:2080-2164 | the three revenge targets: the board keeps its shape, the queue only gains support entries in front |
| Battle.Field.PaybackOne | sim.cpp:2072-2206 | one paybacker strikes back: the board keeps its shape, the queue only gains support entries in front |
| Battle.Field.PaybackAll | sim.cpp:2072-2207 | every paybacker: the board keeps its shape, the queue only gains support entries in front |
| Battle.Field.DeathSkills | sim.cpp:2070 | the killed list is emptied |
| Battle.Field.FirstPass | sim.cpp:2023-2070 | the paybackers are on the board |
| Battle.Field.HostileFast | sim.cpp:2020-2210 | the killed list is emptied |
| Battle.Field.Perform | sim.cpp:2631-2651 | a non-hostile skill leaves the queue alone |
| Battle.Field.Pop | sim.cpp:456-459 | the first entry is taken off the queue |
| Battle.Field.ResolveEntry | sim.cpp:460-496 | a dead or jammed caster, or a skill whose X is sabotaged to zero, changes nothing: board, queue, random stream, end flag, killed list and damage counts stay; a support entry queues nothing |
| Battle.Field.PerformEntry | sim.cpp:473-494 | a living, unjammed caster whose skill keeps its X performs the skill as `Modified` makes it; the board keeps its shape, a support entry queues nothing, and an empty killed list stays empty |
| Battle.Field.ResolveNext | sim.cpp:454-497 | each round lowers the pending count or shortens the queue |
| Battle.Field.ResolveSkill | sim.cpp:452-498 | returns only with an empty queue |
| Battle.Field.TurnStart | sim.cpp:761-837 | the board becomes `TurnStarted` and is indexed |
| Battle.Field.EndInactive | sim.cpp:840-871 | the board becomes `EndedInactive` |
| Battle.Field.EndAttacker | sim.cpp:878-915 | the board becomes `AttackerEnded` |
| Battle.Field.RefreshAt | sim.cpp:883-888 | the unit becomes `Refreshed` |
| Battle.Field.PoisonAt | sim.cpp:889-903 | the board becomes `Hit` of `PoisonDamage` |
| Battle.Field.EndActive | sim.cpp:873-916 | the loop computes `ActiveEnded` |
| Battle.Field.EndActiveNext | sim.cpp:876-915 | one step of the active loop |
| Battle.Field.Compact | sim.cpp:922-925 | the board becomes `Compacted`; no dead units remain |
| Battle.Field.TurnEnd | sim.cpp:838-926 | queue and killed list empty; no dead units remain |
| Battle.Field.SettleDeaths | sim.cpp:1014-1015 | queue and killed list empty |
| Battle.Field.DealDamage | sim.cpp:1222-1241 | a commander loses the damage directly and the battle ends exactly at zero health |
| Battle.Field.Counterflux | sim.cpp:1017-1027 | the defender becomes `CounterfluxGain` under Counterflux when a living assault |
| Battle.Field.TakeCounter | sim.cpp:1001-1015 | queue and killed list empty |
| Battle.Field.CounterStrike | sim.cpp:998-1031 | reports exactly whether the attacker survived |
| Battle.Field.MarkDefender | sim.cpp:1243-1281 | an assault defender becomes `DamageDependent` |
| Battle.Field.Retaliate | sim.cpp:996-1031 | a fallen attacker is dead |
| Battle.Field.GainAftermath | sim.cpp:1033-1098 | the attacker becomes `Aftermath` |
| Battle.Field.AfterHit | sim.cpp:996-1098 | queue and killed list empty |
| Battle.Field.Land | sim.cpp:994-1098 | a commander hit at least its health ends the battle |
| Battle.Field.BrigadeStep | sim.cpp:1214-1219 | the attacker becomes `Brigaded` |
| Battle.Field.PerformAttack | sim.cpp:979-1101 | returns `ModifyAttackDamage`; no power changes nothing; absorbed damage only lets Brigade heal |
| Battle.Field.Powered | sim.cpp:991-1101 | zero damage is only Brigade; a lethal commander hit ends the battle |
| Battle.Field.SwipeAll | sim.cpp:1336-1346 | the loop computes `Swiped` |
| Battle.Field.DrainStep | sim.cpp:1347-1352 | the attacker becomes `Drained` |
| Battle.Field.SwipeAndDrain | sim.cpp:1330-1355 | queue and killed list empty |
| Battle.Field.SwipeThenDrain | sim.cpp:1335-1352 | queue empty |
| Battle.Field.BloodlustStep | sim.cpp:1363-1367 | the first damaging attack of an action raises Bloodlust by the effect's value |
| Battle.Field.AttackPhase | sim.cpp:1314-1370 | attacks exactly when attack power is positive; otherwise nothing changes |
| Battle.Field.Fire | sim.cpp:530-531 | the board keeps its shape; queue and killed list end empty |
| Battle.Field.ActivateSkills | sim.cpp:517-533 | with no ready skill nothing changes |
| Battle.Field.FlurryCooldown | sim.cpp:563-570 | the unit becomes `FlurryCooled` |
| Battle.Field.Act | sim.cpp:515-550 | an earlier attack stays recorded and only an assault attacks; stops only on a first attack that ended the battle |
| Battle.Field.FlurryStep | sim.cpp:552-571 | when flurry fires, its base value in extra actions and `FlurryCooled`; otherwise nothing |
| Battle.Field.EvaluateSkills | sim.cpp:509-573 | only an assault attacks; zero fuel changes nothing |
| Battle.Field.HaltedOrders | sim.cpp:2476-2484 | under Halted Orders a waiting assault raises the living enemy across's inhibit to its own when strictly greater; otherwise nothing changes |
| Battle.Field.EndAction | sim.cpp:2501-2516 | the unit becomes `ActionEnded` |
| Battle.Field.StartAction | sim.cpp:2495-2497 | stasis protection cleared, step attacking, bloodlust flag cleared, bloodlust value kept |
| Battle.Field.AssaultTurn | sim.cpp:2467-2516 | unless the battle ended the assault has attacked; an inactive assault never ends the battle |
| Battle.Field.ActiveAction | sim.cpp:2495-2498 | the active player, turn and phase stay; queue and killed list end empty |
| Battle.Field.BgSkill | sim.cpp:2436-2440 | queue and killed list empty |
| Battle.Field.BgSkills | sim.cpp:2434-2441 | queue and killed list empty |
| Battle.Field.HeroismOn | sim.cpp:2385-2430 | an assault without valor is untouched |
| Battle.Field.HeroicProtect | sim.cpp:2425-2429 | the board keeps its shape |
| Battle.Field.HeroismPhase | sim.cpp:2383-2431 | without Heroism nothing changes |
| Battle.Field.EvaluateCommander | sim.cpp:2445-2446 | the phase becomes the commander phase; turn and active player stay |
| Battle.Field.EvaluateStructures | sim.cpp:2450-2462 | the phase becomes the structures phase; turn and active player stay |
| Battle.Field.EvaluateAssaults | sim.cpp:2464-2517 | the phase becomes the assaults phase; turn and active player stay |
| Battle.Field.PlayCard | sim.cpp:575-640 | the card is added at the end of the right storage, as `Added` of `Placed` |
| Battle.Field.Allegiance | sim.cpp:2262-2275 | the assaults become `AllegiantAll` |
| Battle.Field.MarkStasis | sim.cpp:2296-2307 | the faction is marked exactly when the card has stasis (or counter under Temporal Backlash) |
| Battle.Field.StackStasis | sim.cpp:2310-2378 | the played card's stasis protection is `StackedStasis`; a zero stack unmarks the faction |
| Battle.Field.Unmark | sim.cpp:2371-2377 | a zero stack unmarks the faction |
| Battle.Field.StackedFor | sim.cpp:2313-2362 | returns `StackedStasis` |
| Battle.Field.PlaceDrawn | sim.cpp:2277-2378 | the drawn card is at the end of its storage |
| Battle.Field.PlayDrawn | sim.cpp:2259-2379 | no draw changes nothing; a drawn card is at the end of its storage |
| Battle.Field.Turn | sim.cpp:2250-2525 | unless ended, the other player becomes active and the turn advances; the end phase runs unless the battle ended in the play-card or commander phase (before the structures phase), and after it no dead unit remains |
| Battle.Field.StartTurn | sim.cpp:2252-2379 | the phase is play-card; turn and active player stay |
| Battle.Field.Actions | sim.cpp:2382-2517 | queue and killed list end empty; turn and active player stay; it reports a battle that ended before the structures phase, and otherwise ends in the assaults phase |
| Battle.Field.FinishTurn | sim.cpp:2518-2524 | no dead unit remains; unless ended, the other player becomes active and the turn advances |
| Battle.Field.PlayFortresses | sim.cpp:2235-2248 | each player's structures grow by exactly its fortress cards; assaults unchanged |
| Battle.Field.FortressRound | sim.cpp:2236-2248 | the active player's structures grow by its fortress cards and the other player becomes active |
| Battle.Field.PlayFortsOf | sim.cpp:2238-2245 | the structures grow by the fortress cards |
| Battle.Field.Play | sim.cpp:2225-2525 | ends with a dead commander or past the turn limit, never more than one turn past; ended exactly when a commander is dead |
| Battle.Field.Result | sim.cpp:2526-2628 | returns `Outcome`; lost exactly when player 0's commander is dead; one of win, stall, loss |

## Left out

- Logging: the description builders, `print_selection_array` and every debug message. None of them changes the battle.
- Quests: the quest counters, the quest score and the quest mode of the result. They only serve the external optimiser.
- Decks: drawing and shuffling happen outside this file. `Play` takes the card drawn in each turn as input.
- Card counts for scoring: the counts the scores read from a deck (cards still to draw, deck size) are inputs.
- Score bounds: `max_possible_score` and `min_possible_score` are parameters.
- Turn limit: `turn_limit` is a parameter (50 in the program).
- Random numbers: the Mersenne Twister is replaced by a supplied stream of naturals. A draw in `lo..hi` is `lo + head % (hi - lo + 1)`, and an exhausted stream yields `lo`.
- Skill classification: the enumeration order of skills and the classifiers `is_activation_skill`, `is_activation_skill_with_x`, `is_defensive_skill`, `is_activation_hostile_skill` and `is_activation_helpful_skill` live in headers that are not part of this model. They are chosen to fit their use in the engine.
- `Storage`: its internals are not part of this model. A storage is a sequence addressed by position; `m_indirect` walks it in order, and `add_back` appends.
- `m_index`: it is identified with the storage position, which `turn_start_phase` makes true for every unit.
- Gilian cards: the card-id ranges of `is_gilian` are a set of card ids given to the battle.
- Faction bitmaps: the 8-bit coalition bitmap with its bit count, and each player's stasis bitmap, are modelled as sets of factions.
- Integer widths: unsigned 32-bit wrap-around is modelled only where a result can wrap: the scores. Elsewhere counters are unbounded naturals. `Combat.UnsignedShare` writes out the Counterflux expression `(v - 1) / d + 1` with its wrap at zero. That branch is unreachable, because Counterflux runs only for a defender with the counter skill, whose counter value is positive (`Combat.CounterfluxShareNeverWraps`).
- Surge: it only decides which player starts.
- Mimic with no mimickable skill: the program asserts this never happens; the model does nothing.
- Drawn commanders: the program's assert that a drawn card is never a commander is a precondition of `PlayDrawn`.
- Battle.Field.EvaluateSkills: performs at most `fuel` actions, where the program lets Flurry add actions without bound. States the invariants of the actions, not their exact effect, because the skills resolve through the queue and nested dispatch.
- Battle.Field.Act: states the invariants of one action and its stop condition, not the effect of the resolved skills.
- Battle.Field.Fire: states the invariants, not the effect of the skill fired.
- Battle.Field.ActivateSkills: states the invariants and the no-ready-skill case, not the effect of the fired skills.
- Battle.Field.ActiveAction: states the invariants of an assault's action, not its effect on the board.
- Battle.Field.AssaultTurn: states that a surviving assault has attacked and that an inactive one cannot end the battle, not the board afterwards.
- Battle.Field.AttackPhase: states when the assault attacks, the bloodlust bookkeeping and the lethal-commander case, not the board after the attack.
- Battle.Field.SwipeAndDrain: states the invariants, not the board after swipe, drain and the deaths they cause.
- Battle.Field.PerformEntry: states the invariants and the support-entry case, not the board after the performed skill.
- Battle.Field.SwipeThenDrain: states the invariants, not the board after swipe and drain.
- Battle.Field.AfterHit: states the invariants, not the board after the counter and the gains.
- Battle.Field.PerformAttack: states the damage, the powerless and the absorbed cases and the lethal-commander case, not the defender's health after a hit, because the counter, the gains and the death skills that follow resolve through the queue.
- Battle.Field.Powered: states the absorbed case and the lethal-commander case, not the defender's health after a hit, for the same reason.
- Battle.Field.Land: states the invariants and the lethal-commander case, not the full board after the hit.
- Battle.Field.Retaliate: states the invariants and that a fallen attacker is dead, not the counter damage taken.
- Battle.Field.TakeCounter: states the invariants, not the counter damage taken, because the death skills resolve through the queue.
- Battle.Field.CounterStrike: states the invariants and the survival flag, not the counter damage taken.
- Battle.Field.SettleDeaths: states only that the queue and the killed list end empty, because the death skills resolve through the queue.
- Battle.Field.Perform: states the invariants and that a non-hostile skill leaves the queue alone, not the board after the skill.
- Battle.Field.HostileFast: states the invariants, not the board after the skill, its paybacks and its revenges.
- Battle.Field.FirstPass: states the invariants and where the paybackers are, not the board after the pass.
- Battle.Field.DeathSkills: states only that the killed list ends empty.
- Battle.Field.PaybackAll: states the invariants, not the board after the paybacks.
- Battle.Field.PaybackOne: states the invariants, not the board after the payback.
- Battle.Field.RevengeAll: states the invariants, not the board after the revenge strikes.
- Battle.Field.RevengeCase: states the invariants, not the board after the revenge strike.
- Battle.Field.StrikeBack: states the invariants and the skipped case, not the board after the strike.
- Battle.Field.SpendPayback: states the invariants, not the payback count spent.
- Battle.Field.TurningTidesRally: states the invariants, not the rally given.
- Battle.Field.HostileStep: states the invariants and when a payback or a drop can arise, not the board after the step.
- Battle.Field.HostileTargets: states the invariants and where the paybackers are, not the board after the pass.
- Battle.Field.PerformCooled: states the invariants, not the board after the skill.
- Battle.Field.MimicOn: states the invariants and the nothing-to-mimic case, not the copied skill's effect.
- Battle.Field.ResolveEntry: states the skip cases of a dead or jammed caster, of a sabotaged-away skill and of a support entry, not the board after the performed skill.
- Battle.Field.ResolveNext: states termination, not the board after the performed skill.
- Battle.Field.ResolveSkill: states termination and the empty queue, not the board after the performed skills.
- Battle.Field.AlliedFast: states the exact board only without Divert; the Divert retries keep only the invariants.
- Battle.Field.Divert: states the invariants, not which targets the retries reach.
- Battle.Field.DivertOnce: states the invariants, not which targets the retry reaches.
- Battle.Field.RushFast: states the one-attempt rule for non-commanders, not the rush effect on the targets.
- Battle.Field.Candidates: states where the candidates come from and exactly which ones for mend, not which ones for the other skills; `select_targets` itself is specified in full by `Targeting.SelectTargets`. A structure whose index lies beyond the last assault makes the program read past the end of the assault storage when it looks for mend targets; the model gives such a caster no mend candidates.
- Battle.Field.Targets: states where the targets come from, not which ones.
- Battle.Field.HeroismOn: states the invariants and the no-valor case, not the protection granted.
- Battle.Field.HeroicProtect: states the invariants, not the protection granted.
- Battle.Field.HeroismPhase: states the invariants and the no-Heroism case, not the protection granted.
- Battle.Field.BgSkill: states the invariants, not the effect of the battleground skill.
- Battle.Field.BgSkills: states the invariants, not the effect of the battleground skills.
- Battle.Field.EvaluateCommander: states the phase bookkeeping, not the commander's effect.
- Battle.Field.EvaluateStructures: states the phase bookkeeping, not the structures' effect.
- Battle.Field.EvaluateAssaults: states the phase bookkeeping, not the assaults' effect.
- Battle.Field.Actions: states the turn bookkeeping, not the board after the actions.
- Battle.Field.StartTurn: states the turn bookkeeping, not the board after the card is played.
- Battle.Field.TurnEnd: states the empty queue and killed list and that no dead unit remains, not the full board.
- Battle.Field.Turn: states the turn bookkeeping, not the board after the turn.
- Battle.Field.FinishTurn: states the turn bookkeeping, not the board after the end phase.
- Battle.Field.Play: states how the game ends, not the final board.
- Battle.Field.PlaceDrawn: states where the played card lands, not the Allegiance and Stasis effects of playing it.
- Battle.Field.PlayDrawn: states where the played card lands, not the Allegiance and Stasis effects of playing it.
- Battle.Field.PlayFortresses: states the storage sizes, not the placed statuses.
- Battle.Field.FortressRound: states the storage sizes, not the placed statuses.
- Battle.Field.PlayFortsOf: states the storage sizes, not the placed statuses.
- Effects.Avenged: states which fields change and that health never drops; the exact values added are stated by `Effects.AvengedValues`.
- Effects.OnDeath: states that only living assaults change, not the avenged and poisoned values.
- Effects.OnDeathFrom: states that only living assaults change, not the avenged and poisoned values.
- Effects.OnDeathStep: states that only living assaults change, not the avenged and poisoned values.
- Dispatch.AlliedAll: states which units may change, not the effect on each target.
