/**
 * The "Genre Hunt" link rule of src/lib/modes/genreHunt.ts: a session is a
 * chain of rounds, each anime after the first must share at least one voice
 * actor with the anime of the round before it, and no voice actor may justify
 * more than MAX_STAFF_USAGE links in one session.
 *
 * `Decide` is the whole rule as a function of the session state and the
 * candidate; `GameDetails.TryAddRound` is the imperative operation, proved to
 * do what `Decide` says. The lemmas state what the rule guarantees about the
 * chain of rounds.
 */
module GenreHunt {
  import opened Wrappers
  import opened Seqs
  import opened Types

  /** A voice actor may justify at most this many links in one session. */
  const MAX_STAFF_USAGE := 3

  /** The session is over once exactly this many rounds have been played. */
  const FINAL_ROUND := 10

  /**
   * A played round. `staffUsed` are the voice actors that justified the link
   * (empty for round 1); `roundStaffUsage` records, for each of them, their
   * session-wide usage count just after this round.
   */
  datatype Round = Round(
    number: int,
    anime: Anime,
    staffUsed: seq<Seiyuu>,
    roundStaffUsage: map<int, int>)

  /** Why a candidate anime is refused; the order is the order of the checks. */
  datatype LinkError =
    | AlreadyPlayed
    | NoStaffInformation
    | NoSharedVoiceActors
    | Overused(staff: seq<Seiyuu>)   // the shared voice actors that are used up
    | CannotBeLinked

  /** What `tryAddRound` returns. */
  datatype LinkResult = Linked(round: Round) | Refused(error: LinkError)

  /** The rule's verdict: the round to append and the new usage map, or a refusal. */
  datatype Decision = Accept(round: Round, usage: map<int, int>) | Reject(error: LinkError)

  // ---------------------------------------------------------------------------
  // Usage counts

  /** `usage.get(id) ?? 0` */
  function Usage(usage: map<int, int>, id: int): int {
    if id in usage then usage[id] else 0
  }

  /** How many members of `staff` carry `id`. */
  function Count(staff: seq<Seiyuu>, id: int): nat {
    if staff == [] then 0
    else Count(staff[..|staff| - 1], id) + (if staff[|staff| - 1].id == id then 1 else 0)
  }

  lemma {:induction false} CountAbsent(staff: seq<Seiyuu>, id: int)
    requires id !in StaffIds(staff)
    ensures Count(staff, id) == 0
  {
    if staff != [] {
      var init := staff[..|staff| - 1];
      assert staff == init + [staff[|staff| - 1]];
      KeysOfSnoc(init, staff[|staff| - 1], SeiyuuId);
      CountAbsent(init, id);
    }
  }

  lemma {:induction false} CountPresent(staff: seq<Seiyuu>, i: int)
    requires 0 <= i < |staff|
    ensures Count(staff, staff[i].id) >= 1
  {
    var init := staff[..|staff| - 1];
    if i < |staff| - 1 {
      assert init[i] == staff[i];
      CountPresent(init, i);
    }
  }

  lemma {:induction false} CountDistinct(staff: seq<Seiyuu>, id: int)
    requires DistinctKeys(staff, SeiyuuId)
    ensures Count(staff, id) <= 1
  {
    if staff != [] {
      var init := staff[..|staff| - 1];
      var last := staff[|staff| - 1];
      assert DistinctKeys(init, SeiyuuId);
      CountDistinct(init, id);
      if last.id == id {
        forall x | x in init ensures x.id != id {
          var i :| 0 <= i < |init| && init[i] == x;
          assert SeiyuuId(staff[i]) != SeiyuuId(staff[|staff| - 1]);
        }
        CountAbsent(init, id);
      }
    }
  }

  /**
   * The session usage after crediting every member of `staffUsed` once:
   * the `overall` map of `updateStaffUsage`.
   */
  function Credited(usage: map<int, int>, staffUsed: seq<Seiyuu>): map<int, int> {
    map id | id in usage.Keys + StaffIds(staffUsed) :: Usage(usage, id) + Count(staffUsed, id)
  }

  /** The same counts, restricted to the staff credited: the `round` map. */
  function RoundCredited(usage: map<int, int>, staffUsed: seq<Seiyuu>): map<int, int> {
    map id | id in StaffIds(staffUsed) :: Usage(usage, id) + Count(staffUsed, id)
  }

  /** Crediting adds, per voice actor, the number of times they are credited. */
  lemma CreditedCounts(usage: map<int, int>, staffUsed: seq<Seiyuu>, id: int)
    ensures Usage(Credited(usage, staffUsed), id) == Usage(usage, id) + Count(staffUsed, id)
  {
    if id !in usage.Keys + StaffIds(staffUsed) {
      CountAbsent(staffUsed, id);
    }
  }

  /** The shape of the two maps crediting produces. */
  lemma CreditedShape(usage: map<int, int>, staffUsed: seq<Seiyuu>)
    ensures Credited(usage, staffUsed).Keys == usage.Keys + StaffIds(staffUsed)
    ensures forall id :: Usage(Credited(usage, staffUsed), id) == Usage(usage, id) + Count(staffUsed, id)
    ensures RoundCredited(usage, staffUsed).Keys == StaffIds(staffUsed)
    ensures forall id :: id in RoundCredited(usage, staffUsed) ==>
              RoundCredited(usage, staffUsed)[id] == Credited(usage, staffUsed)[id]
  {
    forall id ensures Usage(Credited(usage, staffUsed), id) == Usage(usage, id) + Count(staffUsed, id) {
      CreditedCounts(usage, staffUsed, id);
    }
  }

  lemma CountSnoc(staff: seq<Seiyuu>, x: Seiyuu, id: int)
    ensures Count(staff + [x], id) == Count(staff, id) + (if x.id == id then 1 else 0)
  {
    assert (staff + [x])[..|staff|] == staff;
  }

  /** One iteration of the crediting loop, on the session map. */
  lemma CreditedStep(usage: map<int, int>, staff: seq<Seiyuu>, x: Seiyuu)
    ensures var before := Credited(usage, staff);
            Credited(usage, staff + [x]) == before[x.id := Usage(before, x.id) + 1]
  {
    var before := Credited(usage, staff);
    var after := Credited(usage, staff + [x]);
    var expected := before[x.id := Usage(before, x.id) + 1];
    KeysOfSnoc(staff, x, SeiyuuId);
    assert after.Keys == expected.Keys;
    forall id | id in after ensures after[id] == expected[id] {
      CountSnoc(staff, x, id);
      CreditedCounts(usage, staff, id);
    }
  }

  /** One iteration of the crediting loop, on the round map. */
  lemma RoundCreditedStep(usage: map<int, int>, staff: seq<Seiyuu>, x: Seiyuu)
    ensures var before := Credited(usage, staff);
            RoundCredited(usage, staff + [x]) == RoundCredited(usage, staff)[x.id := Usage(before, x.id) + 1]
  {
    var before := Credited(usage, staff);
    var after := RoundCredited(usage, staff + [x]);
    var expected := RoundCredited(usage, staff)[x.id := Usage(before, x.id) + 1];
    KeysOfSnoc(staff, x, SeiyuuId);
    assert after.Keys == expected.Keys;
    forall id | id in after ensures after[id] == expected[id] {
      CountSnoc(staff, x, id);
      CreditedCounts(usage, staff, id);
    }
  }

  /**
   * `updateStaffUsage`: copy the session usage and add one per credited voice
   * actor, recording each new count in the round map as well.
   */
  method UpdateStaffUsage(staffUsed: seq<Seiyuu>, currentUsage: map<int, int>)
    returns (overall: map<int, int>, round: map<int, int>)
    ensures overall == Credited(currentUsage, staffUsed)
    ensures round == RoundCredited(currentUsage, staffUsed)
    ensures overall.Keys == currentUsage.Keys + StaffIds(staffUsed)
    ensures forall id :: Usage(overall, id) == Usage(currentUsage, id) + Count(staffUsed, id)
    ensures round.Keys == StaffIds(staffUsed)
    ensures forall id :: id in round ==> round[id] == overall[id]
  {
    overall := currentUsage;
    round := map[];
    var i := 0;
    assert staffUsed[..0] == [];
    while i < |staffUsed|
      invariant 0 <= i <= |staffUsed|
      invariant overall == Credited(currentUsage, staffUsed[..i])
      invariant round == RoundCredited(currentUsage, staffUsed[..i])
    {
      var staff := staffUsed[i];
      CreditedStep(currentUsage, staffUsed[..i], staff);
      RoundCreditedStep(currentUsage, staffUsed[..i], staff);
      assert staffUsed[..i + 1] == staffUsed[..i] + [staff];
      var newCount := Usage(overall, staff.id) + 1;
      overall := overall[staff.id := newCount];
      round := round[staff.id := newCount];
      i := i + 1;
    }
    assert staffUsed[..i] == staffUsed;
    CreditedShape(currentUsage, staffUsed);
  }

  // ---------------------------------------------------------------------------
  // The link rule

  /** Some round of the session already played the anime `id`. */
  predicate Played(rounds: seq<Round>, id: int) {
    exists k :: 0 <= k < |rounds| && rounds[k].anime.id == id
  }

  /** The voice actor also appears in `previous`. */
  function SharesWith(previous: seq<Seiyuu>): Seiyuu -> bool {
    (s: Seiyuu) => s.id in StaffIds(previous)
  }

  /** The voice actor has already justified MAX_STAFF_USAGE links. */
  function UsedUp(usage: map<int, int>): Seiyuu -> bool {
    (s: Seiyuu) => Usage(usage, s.id) >= MAX_STAFF_USAGE
  }

  /** The voice actor has justified fewer than MAX_STAFF_USAGE links. */
  function Fresh(usage: map<int, int>): Seiyuu -> bool {
    (s: Seiyuu) => Usage(usage, s.id) < MAX_STAFF_USAGE
  }

  /** The voice actor appears in `previous` and is not used up. */
  function Eligible(previous: seq<Seiyuu>, usage: map<int, int>): Seiyuu -> bool {
    (s: Seiyuu) => s.id in StaffIds(previous) && Usage(usage, s.id) < MAX_STAFF_USAGE
  }

  /** `allOverlapping`: the candidate's cast members that were also in the last anime. */
  function SharedStaff(candidate: seq<Seiyuu>, previous: seq<Seiyuu>): seq<Seiyuu> {
    Filter(candidate, SharesWith(previous))
  }

  /** `overusedStaff`: the shared cast members that are used up. */
  function OverusedStaff(overlapping: seq<Seiyuu>, usage: map<int, int>): seq<Seiyuu> {
    Filter(overlapping, UsedUp(usage))
  }

  /**
   * `getValidOverlappingStaff`: the candidate's cast members, in the
   * candidate's order, that were in the last anime and are not used up;
   * nothing when either anime lacks cast information.
   */
  function ValidOverlappingStaff(lastAnime: Anime, newAnime: Anime, usage: map<int, int>): (valid: seq<Seiyuu>)
    ensures lastAnime.staff.None? || newAnime.staff.None? ==> valid == []
    ensures lastAnime.staff.Some? && newAnime.staff.Some? ==>
              (forall i :: 0 <= i < |valid| ==>
                 valid[i] in newAnime.staff.value
                 && valid[i].id in StaffIds(lastAnime.staff.value)
                 && Usage(usage, valid[i].id) < MAX_STAFF_USAGE)
              && (forall i :: 0 <= i < |newAnime.staff.value|
                    && newAnime.staff.value[i].id in StaffIds(lastAnime.staff.value)
                    && Usage(usage, newAnime.staff.value[i].id) < MAX_STAFF_USAGE
                    ==> newAnime.staff.value[i] in valid)
  {
    if lastAnime.staff.None? || newAnime.staff.None? then []
    else Filter(newAnime.staff.value, Eligible(lastAnime.staff.value, usage))
  }

  /**
   * The verdict of `tryAddRound` on the session `rounds`/`usage` for the
   * candidate `newAnime`, checks in the order the operation makes them.
   */
  function Decide(rounds: seq<Round>, usage: map<int, int>, newAnime: Anime): Decision {
    if Played(rounds, newAnime.id) then Reject(AlreadyPlayed)
    else if rounds == [] then Accept(Round(|rounds| + 1, newAnime, [], map[]), usage)
    else
      var lastAnime := rounds[|rounds| - 1].anime;
      if lastAnime.staff.None? || newAnime.staff.None? then Reject(NoStaffInformation)
      else
        var allOverlapping := SharedStaff(newAnime.staff.value, lastAnime.staff.value);
        if |allOverlapping| == 0 then Reject(NoSharedVoiceActors)
        else
          var overused := OverusedStaff(allOverlapping, usage);
          if |overused| > 0 then Reject(Overused(overused))
          else
            var staffUsed := ValidOverlappingStaff(lastAnime, newAnime, usage);
            if |staffUsed| == 0 then Reject(CannotBeLinked)
            else Accept(Round(|rounds| + 1, newAnime, staffUsed, RoundCredited(usage, staffUsed)),
                        Credited(usage, staffUsed))
  }

  // ---------------------------------------------------------------------------
  // The session

  /** The mutable part of a Genre Hunt session. */
  class GameDetails {
    var rounds: seq<Round>
    var overallStaffUsage: map<int, int>

    /** A fresh session: no rounds, no usage. */
    constructor ()
      ensures rounds == [] && overallStaffUsage == map[]
      ensures ChainValid(rounds, overallStaffUsage)
    {
      rounds := [];
      overallStaffUsage := map[];
    }

    /**
     * `tryAddRound`: append the candidate as the next round and credit the
     * voice actors that link it, or refuse it and change nothing. What the
     * outcome is, is `Decide`'s verdict; `DecideKeepsChainValid` shows that an
     * accepted round keeps the session well-formed.
     */
    method TryAddRound(newAnime: Anime) returns (result: LinkResult)
      modifies this
      ensures match Decide(old(rounds), old(overallStaffUsage), newAnime)
              case Accept(round, usage) =>
                result == Linked(round) && rounds == old(rounds) + [round] && overallStaffUsage == usage
              case Reject(error) =>
                result == Refused(error) && rounds == old(rounds) && overallStaffUsage == old(overallStaffUsage)
    {
      if exists k :: 0 <= k < |rounds| && rounds[k].anime.id == newAnime.id {
        return Refused(AlreadyPlayed);
      }
      var roundNumber := |rounds| + 1;
      if rounds == [] {
        var newRound := Round(roundNumber, newAnime, [], map[]);
        rounds := rounds + [newRound];
        return Linked(newRound);
      }
      var lastAnime := rounds[|rounds| - 1].anime;
      if lastAnime.staff.None? || newAnime.staff.None? {
        return Refused(NoStaffInformation);
      }
      var allOverlapping := SharedStaff(newAnime.staff.value, lastAnime.staff.value);
      if |allOverlapping| == 0 {
        return Refused(NoSharedVoiceActors);
      }
      var overusedStaff := OverusedStaff(allOverlapping, overallStaffUsage);
      if |overusedStaff| > 0 {
        return Refused(Overused(overusedStaff));
      }
      var staffUsed := ValidOverlappingStaff(lastAnime, newAnime, overallStaffUsage);
      if |staffUsed| == 0 {
        return Refused(CannotBeLinked);
      }
      var overall, roundStaffUsage := UpdateStaffUsage(staffUsed, overallStaffUsage);
      var newRound := Round(roundNumber, newAnime, staffUsed, roundStaffUsage);
      rounds := rounds + [newRound];
      overallStaffUsage := overall;
      return Linked(newRound);
    }

    /** `isGameOver`, as written: exactly FINAL_ROUND rounds have been played. */
    predicate IsGameOver()
      reads this
    {
      RoundsComplete(rounds)
    }
  }

  // ---------------------------------------------------------------------------
  // What the rule guarantees

  /** How many links of the session `id` has justified. */
  function TimesCredited(rounds: seq<Round>, id: int): nat {
    if rounds == [] then 0
    else TimesCredited(rounds[..|rounds| - 1], id) + Count(rounds[|rounds| - 1].staffUsed, id)
  }

  /** `round` is linked to the anime `previous` by the voice actors it credits. */
  ghost predicate LinksTo(previous: Anime, round: Round) {
    && previous.staff.Some? && round.anime.staff.Some?
    && round.staffUsed != []
    && (forall i :: 0 <= i < |round.staffUsed| ==>
          round.staffUsed[i] in round.anime.staff.value
          && round.staffUsed[i].id in StaffIds(previous.staff.value))
    && round.roundStaffUsage.Keys == StaffIds(round.staffUsed)
  }

  /**
   * A well-formed session: the rounds form a chain (`ChainShape`) and the
   * usage counts agree with it (`ChainCounts`).
   */
  ghost predicate ChainValid(rounds: seq<Round>, usage: map<int, int>) {
    ChainShape(rounds) && ChainCounts(rounds, usage)
  }

  /**
   * Rounds numbered 1, 2, ...; no anime twice; round 1 credits nobody; every
   * later round is linked to the one before.
   */
  ghost predicate ChainShape(rounds: seq<Round>) {
    && (forall k :: 0 <= k < |rounds| ==> rounds[k].number == k + 1)
    && (forall k, l :: 0 <= k < l < |rounds| ==> rounds[k].anime.id != rounds[l].anime.id)
    && (|rounds| > 0 ==> rounds[0].staffUsed == [] && rounds[0].roundStaffUsage == map[])
    && (forall k :: 0 < k < |rounds| ==> LinksTo(rounds[k - 1].anime, rounds[k]))
  }

  /**
   * Each round's usage snapshot holds the running totals after it; the usage
   * map counts exactly the credits of all rounds, and no count exceeds the cap.
   */
  ghost predicate ChainCounts(rounds: seq<Round>, usage: map<int, int>) {
    && (forall k, id :: 0 <= k < |rounds| && id in rounds[k].roundStaffUsage ==>
          rounds[k].roundStaffUsage[id] == TimesCredited(rounds[..k + 1], id))
    && (forall id :: Usage(usage, id) == TimesCredited(rounds, id))
    && (forall id :: id in usage ==> 0 < usage[id] <= MAX_STAFF_USAGE)
  }

  /**
   * Once nobody shared is used up, the eligible staff are all the shared
   * staff: the `staffUsed.length === 0` refusal can never be reached.
   */
  lemma {:induction false} NoneUsedUpMeansAllEligible(lastAnime: Anime, newAnime: Anime, usage: map<int, int>)
    requires lastAnime.staff.Some? && newAnime.staff.Some?
    requires OverusedStaff(SharedStaff(newAnime.staff.value, lastAnime.staff.value), usage) == []
    ensures ValidOverlappingStaff(lastAnime, newAnime, usage)
            == SharedStaff(newAnime.staff.value, lastAnime.staff.value)
  {
    var shared := SharedStaff(newAnime.staff.value, lastAnime.staff.value);
    FilterFilter(newAnime.staff.value, SharesWith(lastAnime.staff.value), Fresh(usage),
                 Eligible(lastAnime.staff.value, usage));
    forall i | 0 <= i < |shared| ensures Fresh(usage)(shared[i]) {
      assert !UsedUp(usage)(shared[i]);
    }
    FilterKeepsAll(shared, Fresh(usage));
  }

  /** No candidate is ever refused with `CannotBeLinked`. */
  lemma CannotBeLinkedIsUnreachable(rounds: seq<Round>, usage: map<int, int>, newAnime: Anime)
    ensures Decide(rounds, usage, newAnime) != Reject(CannotBeLinked)
  {
    if !Played(rounds, newAnime.id) && rounds != [] {
      var lastAnime := rounds[|rounds| - 1].anime;
      if lastAnime.staff.Some? && newAnime.staff.Some? {
        var shared := SharedStaff(newAnime.staff.value, lastAnime.staff.value);
        if |shared| != 0 && OverusedStaff(shared, usage) == [] {
          NoneUsedUpMeansAllEligible(lastAnime, newAnime, usage);
        }
      }
    }
  }

  /**
   * A link is credited to every voice actor the two anime share, in the
   * candidate's order, and to nobody else.
   */
  lemma AcceptedLinkCreditsAllSharedStaff(rounds: seq<Round>, usage: map<int, int>, newAnime: Anime)
    requires rounds != []
    ensures var d := Decide(rounds, usage, newAnime);
            var lastAnime := rounds[|rounds| - 1].anime;
            d.Accept? ==>
              lastAnime.staff.Some? && newAnime.staff.Some?
              && d.round.staffUsed == SharedStaff(newAnime.staff.value, lastAnime.staff.value)
              && d.round.staffUsed != []
              && (forall i :: 0 <= i < |d.round.staffUsed| ==>
                    Usage(usage, d.round.staffUsed[i].id) < MAX_STAFF_USAGE)
  {
    var lastAnime := rounds[|rounds| - 1].anime;
    if Decide(rounds, usage, newAnime).Accept? {
      NoneUsedUpMeansAllEligible(lastAnime, newAnime, usage);
    }
  }

  /**
   * The refusal for used-up voice actors names exactly the shared voice
   * actors whose count has reached the cap, in the candidate's order.
   */
  lemma {:induction false} OverusedNamesExactlyTheUsedUp(rounds: seq<Round>, usage: map<int, int>, newAnime: Anime)
    requires rounds != [] && !Played(rounds, newAnime.id)
    requires rounds[|rounds| - 1].anime.staff.Some? && newAnime.staff.Some?
    ensures var prev := rounds[|rounds| - 1].anime.staff.value;
            var cand := newAnime.staff.value;
            var overused := Filter(cand, (s: Seiyuu) => s.id in StaffIds(prev) && Usage(usage, s.id) >= MAX_STAFF_USAGE);
            overused != [] ==> Decide(rounds, usage, newAnime) == Reject(Overused(overused))
  {
    var prev := rounds[|rounds| - 1].anime.staff.value;
    var cand := newAnime.staff.value;
    var both: Seiyuu -> bool := (s: Seiyuu) => s.id in StaffIds(prev) && Usage(usage, s.id) >= MAX_STAFF_USAGE;
    FilterFilter(cand, SharesWith(prev), UsedUp(usage), both);
    var overused := Filter(cand, both);
    if overused != [] {
      assert |SharedStaff(cand, prev)| != 0;
    }
  }

  /**
   * An anime already played anywhere in the session is refused as a
   * duplicate, before any other check and whatever its cast.
   */
  lemma DuplicateRefusedFirst(rounds: seq<Round>, usage: map<int, int>, newAnime: Anime)
    requires Played(rounds, newAnime.id)
    ensures Decide(rounds, usage, newAnime) == Reject(AlreadyPlayed)
  {
  }

  /**
   * After the first round, a new anime is refused for missing cast
   * information exactly when it or the last anime has no cast list.
   */
  lemma MissingStaffRefused(rounds: seq<Round>, usage: map<int, int>, newAnime: Anime)
    requires rounds != [] && !Played(rounds, newAnime.id)
    ensures Decide(rounds, usage, newAnime) == Reject(NoStaffInformation)
            <==> rounds[|rounds| - 1].anime.staff.None? || newAnime.staff.None?
  {
  }

  /**
   * With both cast lists present, a new anime is refused for sharing nobody
   * exactly when none of its cast appears in the last anime's cast.
   */
  lemma NoSharedVoiceActorRefused(rounds: seq<Round>, usage: map<int, int>, newAnime: Anime)
    requires rounds != [] && !Played(rounds, newAnime.id)
    requires rounds[|rounds| - 1].anime.staff.Some? && newAnime.staff.Some?
    ensures var prev := rounds[|rounds| - 1].anime.staff.value;
            var cand := newAnime.staff.value;
            Decide(rounds, usage, newAnime) == Reject(NoSharedVoiceActors)
            <==> forall i :: 0 <= i < |cand| ==> cand[i].id !in StaffIds(prev)
  {
    var prev := rounds[|rounds| - 1].anime.staff.value;
    var cand := newAnime.staff.value;
    var shared := SharedStaff(cand, prev);
    if shared != [] {
      assert shared[0] in cand && SharesWith(prev)(shared[0]);
    } else {
      assert forall i :: 0 <= i < |cand| ==> SharesWith(prev)(cand[i]) == (cand[i].id in StaffIds(prev));
    }
  }

  /**
   * A candidate is accepted exactly when it has not been played and either
   * opens the session, or both cast lists are present, it shares at least
   * one voice actor with the last anime, and none of those shared is used up.
   */
  lemma AcceptedExactly(rounds: seq<Round>, usage: map<int, int>, newAnime: Anime)
    ensures Decide(rounds, usage, newAnime).Accept? <==>
            && !Played(rounds, newAnime.id)
            && (|| rounds == []
                || (var last := rounds[|rounds| - 1].anime;
                    && last.staff.Some? && newAnime.staff.Some?
                    && SharedStaff(newAnime.staff.value, last.staff.value) != []
                    && OverusedStaff(SharedStaff(newAnime.staff.value, last.staff.value), usage) == []))
  {
    CannotBeLinkedIsUnreachable(rounds, usage, newAnime);
  }

  /** Any anime may open a session, with or without cast information. */
  lemma FirstRoundNeedsNoLink(usage: map<int, int>, newAnime: Anime)
    ensures Decide([], usage, newAnime) == Accept(Round(1, newAnime, [], map[]), usage)
  {
  }

  /** Usage counts only ever grow, and never lose a voice actor. */
  lemma UsageNeverDecreases(rounds: seq<Round>, usage: map<int, int>, newAnime: Anime)
    ensures var d := Decide(rounds, usage, newAnime);
            d.Accept? ==> usage.Keys <= d.usage.Keys
                          && forall id :: Usage(usage, id) <= Usage(d.usage, id)
  {
    var d := Decide(rounds, usage, newAnime);
    if d.Accept? && rounds != [] {
      forall id ensures Usage(usage, id) <= Usage(d.usage, id) {
        CreditedCounts(usage, d.round.staffUsed, id);
      }
    }
  }

  /**
   * Crediting a list of distinct voice actors that are all below the cap
   * keeps every count within the cap.
   */
  lemma CreditingKeepsCap(usage: map<int, int>, staffUsed: seq<Seiyuu>)
    requires forall id :: id in usage ==> 0 < usage[id] <= MAX_STAFF_USAGE
    requires DistinctKeys(staffUsed, SeiyuuId)
    requires forall i :: 0 <= i < |staffUsed| ==> Usage(usage, staffUsed[i].id) < MAX_STAFF_USAGE
    ensures forall id :: id in Credited(usage, staffUsed) ==>
              0 < Credited(usage, staffUsed)[id] <= MAX_STAFF_USAGE
  {
    forall id | id in Credited(usage, staffUsed)
      ensures 0 < Credited(usage, staffUsed)[id] <= MAX_STAFF_USAGE
    {
      CreditedCounts(usage, staffUsed, id);
      if id in StaffIds(staffUsed) {
        CountDistinct(staffUsed, id);
        var i :| 0 <= i < |staffUsed| && SeiyuuId(staffUsed[i]) == id;
        assert Count(staffUsed, id) >= 1 by {
          if Count(staffUsed, id) == 0 {
            CountPresent(staffUsed, i);
          }
        }
      } else {
        CountAbsent(staffUsed, id);
      }
    }
  }

  /** `TimesCredited` of a session with one more round. */
  lemma TimesCreditedSnoc(rounds: seq<Round>, r: Round, id: int)
    ensures TimesCredited(rounds + [r], id) == TimesCredited(rounds, id) + Count(r.staffUsed, id)
  {
    assert (rounds + [r])[..|rounds|] == rounds;
  }

  /**
   * Appending a round that is numbered next, plays a new anime, is either an
   * uncredited first round or linked to the round before, and adds its
   * credits to the usage counts without passing the cap, keeps the session
   * well-formed.
   */
  lemma AppendKeepsChainValid(rounds: seq<Round>, usage: map<int, int>, r: Round, usage': map<int, int>)
    requires ChainValid(rounds, usage)
    requires r.number == |rounds| + 1 && !Played(rounds, r.anime.id)
    requires rounds == [] ==> r.staffUsed == [] && r.roundStaffUsage == map[]
    requires rounds != [] ==> LinksTo(rounds[|rounds| - 1].anime, r)
    requires forall id :: Usage(usage', id) == Usage(usage, id) + Count(r.staffUsed, id)
    requires forall id :: id in r.roundStaffUsage ==>
               r.roundStaffUsage[id] == Usage(usage, id) + Count(r.staffUsed, id)
    requires forall id :: id in usage' ==> 0 < usage'[id] <= MAX_STAFF_USAGE
    ensures ChainValid(rounds + [r], usage')
  {
    AppendKeepsShape(rounds, r);
    var next := rounds + [r];
    forall id ensures Usage(usage', id) == TimesCredited(next, id) {
      TimesCreditedSnoc(rounds, r, id);
    }
    SnapshotsAfterAppend(rounds, r);
  }

  lemma AppendKeepsShape(rounds: seq<Round>, r: Round)
    requires ChainShape(rounds)
    requires r.number == |rounds| + 1 && !Played(rounds, r.anime.id)
    requires rounds == [] ==> r.staffUsed == [] && r.roundStaffUsage == map[]
    requires rounds != [] ==> LinksTo(rounds[|rounds| - 1].anime, r)
    ensures ChainShape(rounds + [r])
  {
  }

  /** The usage snapshots of earlier rounds are untouched by appending one. */
  lemma SnapshotsAfterAppend(rounds: seq<Round>, r: Round)
    requires forall k, id :: 0 <= k < |rounds| && id in rounds[k].roundStaffUsage ==>
               rounds[k].roundStaffUsage[id] == TimesCredited(rounds[..k + 1], id)
    requires forall id :: id in r.roundStaffUsage ==>
               r.roundStaffUsage[id] == TimesCredited(rounds, id) + Count(r.staffUsed, id)
    ensures var next := rounds + [r];
            forall k, id :: 0 <= k < |next| && id in next[k].roundStaffUsage ==>
              next[k].roundStaffUsage[id] == TimesCredited(next[..k + 1], id)
  {
    var next := rounds + [r];
    forall k, id | 0 <= k < |next| && id in next[k].roundStaffUsage
      ensures next[k].roundStaffUsage[id] == TimesCredited(next[..k + 1], id)
    {
      if k < |rounds| {
        assert next[..k + 1] == rounds[..k + 1];
      } else {
        assert next[..k + 1] == next;
        TimesCreditedSnoc(rounds, r, id);
      }
    }
  }

  /**
   * Every accepted candidate keeps the session well-formed, provided its cast
   * list names each voice actor once (as the fetched cast lists do).
   */
  lemma DecideKeepsChainValid(rounds: seq<Round>, usage: map<int, int>, newAnime: Anime)
    requires ChainValid(rounds, usage)
    requires newAnime.staff.Some? ==> DistinctKeys(newAnime.staff.value, SeiyuuId)
    ensures var d := Decide(rounds, usage, newAnime);
            d.Accept? ==> ChainValid(rounds + [d.round], d.usage)
  {
    var d := Decide(rounds, usage, newAnime);
    if d.Accept? {
      var r := d.round;
      if rounds != [] {
        var lastAnime := rounds[|rounds| - 1].anime;
        var staffUsed := r.staffUsed;
        assert staffUsed == Filter(newAnime.staff.value, Eligible(lastAnime.staff.value, usage));
        FilterKeepsDistinct(newAnime.staff.value, Eligible(lastAnime.staff.value, usage), SeiyuuId);
        forall i | 0 <= i < |staffUsed| ensures Usage(usage, staffUsed[i].id) < MAX_STAFF_USAGE {
          assert Eligible(lastAnime.staff.value, usage)(staffUsed[i]);
        }
        CreditedShape(usage, staffUsed);
        CreditingKeepsCap(usage, staffUsed);
        assert LinksTo(lastAnime, r);
      }
      AppendKeepsChainValid(rounds, usage, r, d.usage);
    }
  }

  /** The end test as `isGameOver` writes it: exactly FINAL_ROUND rounds. */
  predicate RoundsComplete(rounds: seq<Round>) {
    |rounds| == FINAL_ROUND
  }

  /** The end test as intended: FINAL_ROUND rounds or more. */
  predicate GameOver(rounds: seq<Round>) {
    |rounds| >= FINAL_ROUND
  }

  /** Anime `k` of a sample chain: its cast is voice actors `k` and `k + 1`. */
  function ChainAnime(k: int): Anime {
    Show(k, [Actor(k, Main), Actor(k + 1, Main)])
  }

  /** Round `k + 1` of the sample chain: after the first, linked by voice actor `k`. */
  function ChainRound(k: int): Round {
    if k == 0 then Round(1, ChainAnime(0), [], map[])
    else Round(k + 1, ChainAnime(k), [Actor(k, Main)], map[k := 1])
  }

  /** The first `n` rounds of the sample chain. */
  function SampleChain(n: nat): seq<Round> {
    seq(n, k => ChainRound(k))
  }

  /** The usage after the first `n` rounds of the sample chain. */
  function SampleUsage(n: nat): map<int, int> {
    if n <= 1 then map[] else SampleUsage(n - 1)[n - 1 := 1]
  }

  lemma {:induction false} SampleUsageCounts(n: nat, id: int)
    ensures Usage(SampleUsage(n), id) == if 1 <= id < n then 1 else 0
    ensures id in SampleUsage(n) <==> 1 <= id < n
  {
    if n > 1 {
      SampleUsageCounts(n - 1, id);
    }
  }

  /** In the sample chain, voice actors 1 .. n-1 have each justified one link. */
  lemma {:induction false} SampleChainCredits(n: nat, id: int)
    ensures TimesCredited(SampleChain(n), id) == if 1 <= id < n then 1 else 0
  {
    if n > 0 {
      assert SampleChain(n) == SampleChain(n - 1) + [ChainRound(n - 1)];
      TimesCreditedSnoc(SampleChain(n - 1), ChainRound(n - 1), id);
      SampleChainCredits(n - 1, id);
      assert [Actor(n - 1, Main)][..0] == [];
    }
  }

  /** Each round of the sample chain after the first is linked to the one before. */
  lemma SampleChainLinks(k: int)
    requires k > 0
    ensures LinksTo(ChainAnime(k - 1), ChainRound(k))
  {
    var prev := [Actor(k - 1, Main), Actor(k, Main)];
    var used := [Actor(k, Main)];
    assert prev[1] in prev && SeiyuuId(prev[1]) == k;
    assert StaffIds(used) == {k} by {
      assert used[0] in used && SeiyuuId(used[0]) == k;
    }
  }

  /** The sample chain is numbered, repeats no anime and is linked throughout. */
  lemma SampleChainShape(n: nat)
    ensures ChainShape(SampleChain(n))
  {
    var rounds := SampleChain(n);
    forall k | 0 < k < n ensures LinksTo(rounds[k - 1].anime, rounds[k]) {
      SampleChainLinks(k);
    }
  }

  /** The snapshots and the usage of the sample chain agree with its credits. */
  lemma SampleChainCounts(n: nat)
    ensures ChainCounts(SampleChain(n), SampleUsage(n))
  {
    var rounds := SampleChain(n);
    forall k, id | 0 <= k < n && id in rounds[k].roundStaffUsage
      ensures rounds[k].roundStaffUsage[id] == TimesCredited(rounds[..k + 1], id)
    {
      assert rounds[..k + 1] == SampleChain(k + 1);
      SampleChainCredits(k + 1, id);
    }
    forall id ensures Usage(SampleUsage(n), id) == TimesCredited(rounds, id) {
      SampleChainCredits(n, id);
      SampleUsageCounts(n, id);
    }
    forall id | id in SampleUsage(n) ensures 0 < SampleUsage(n)[id] <= MAX_STAFF_USAGE {
      SampleUsageCounts(n, id);
    }
  }

  /**
   * As written, the game stops being over: in a well-formed ten-round
   * session nothing refuses an eleventh link, the session stays well-formed,
   * and after it the exact-length test is false again.
   */
  lemma {:induction false} GameOverLapsesAsWritten()
    ensures var rounds := SampleChain(FINAL_ROUND);
            var usage := SampleUsage(FINAL_ROUND);
            var d := Decide(rounds, usage, ChainAnime(FINAL_ROUND));
            && ChainValid(rounds, usage) && RoundsComplete(rounds)
            && d.Accept? && ChainValid(rounds + [d.round], d.usage)
            && !RoundsComplete(rounds + [d.round])
  {
    var rounds := SampleChain(FINAL_ROUND);
    var usage := SampleUsage(FINAL_ROUND);
    var next := ChainAnime(FINAL_ROUND);
    var prev := rounds[|rounds| - 1].anime.staff.value;
    var cand := next.staff.value;
    SampleChainShape(FINAL_ROUND);
    SampleChainCounts(FINAL_ROUND);
    assert !Played(rounds, next.id);
    assert prev == [Actor(9, Main), Actor(10, Main)];
    assert StaffIds(prev) == {9, 10} by {
      assert prev[0] in prev && prev[1] in prev;
    }
    assert cand[1..][1..] == [];
    assert SharedStaff(cand, prev) == [cand[0]];
    SampleUsageCounts(FINAL_ROUND, 10);
    assert OverusedStaff([cand[0]], usage) == [];
    assert Filter(cand, Eligible(prev, usage)) == [cand[0]];
    DecideKeepsChainValid(rounds, usage, next);
  }

  /**
   * With the intended test the game, once over, stays over whatever is
   * linked afterwards.
   */
  lemma GameOverStaysOver(rounds: seq<Round>, usage: map<int, int>, newAnime: Anime)
    requires GameOver(rounds)
    ensures var d := Decide(rounds, usage, newAnime);
            GameOver(if d.Accept? then rounds + [d.round] else rounds)
  {
  }

  /**
   * With the intended test, a well-formed session is over exactly when
   * round FINAL_ROUND has been played.
   */
  lemma GameOverOnceFinalRoundPlayed(rounds: seq<Round>, usage: map<int, int>)
    requires ChainValid(rounds, usage)
    ensures GameOver(rounds) <==> exists k :: 0 <= k < |rounds| && rounds[k].number == FINAL_ROUND
  {
    if GameOver(rounds) {
      assert rounds[FINAL_ROUND - 1].number == FINAL_ROUND;
    }
  }

  /**
   * In a well-formed session the game is over exactly when the last round
   * played is round FINAL_ROUND.
   */
  lemma GameOverAtFinalRound(details: GameDetails)
    requires ChainValid(details.rounds, details.overallStaffUsage)
    ensures details.IsGameOver() <==>
            details.rounds != [] && details.rounds[|details.rounds| - 1].number == FINAL_ROUND
  {
  }

  // ---------------------------------------------------------------------------
  // A worked example: anime A voiced by S1 and S2, anime B by S2 and S3,
  // anime C by S4 alone; A opens the session.

  function Actor(id: int, role: Role): Seiyuu {
    Seiyuu(id, "", "", None, Some(role), None)
  }

  function Show(id: int, staff: seq<Seiyuu>): Anime {
    Anime(id, "", "", None, None, None, Some(staff))
  }

  /** Linking B after A credits S2 alone, whose count becomes 1. */
  lemma ExampleSharedActorLinks()
    ensures var a := Show(100, [Actor(1, Main), Actor(2, Supporting)]);
            var b := Show(200, [Actor(2, Supporting), Actor(3, Main)]);
            Decide([Round(1, a, [], map[])], map[], b)
            == Accept(Round(2, b, [Actor(2, Supporting)], map[2 := 1]), map[2 := 1])
  {
    var a := Show(100, [Actor(1, Main), Actor(2, Supporting)]);
    var b := Show(200, [Actor(2, Supporting), Actor(3, Main)]);
    var prev := a.staff.value;
    var cand := b.staff.value;
    assert StaffIds(prev) == {1, 2} by {
      assert SeiyuuId(prev[0]) == 1 && SeiyuuId(prev[1]) == 2;
    }
    assert Filter(cand, SharesWith(prev)) == [cand[0]] by {
      assert Filter(cand[1..], SharesWith(prev)) == [];
    }
    assert Filter(cand, Eligible(prev, map[])) == [cand[0]] by {
      assert Filter(cand[1..], Eligible(prev, map[])) == [];
    }
    assert StaffIds([cand[0]]) == {2} by {
      assert SeiyuuId([cand[0]][0]) == 2;
    }
    assert Count([cand[0]], 2) == 1;
  }

  /** With S2 already used three times, the same link is refused naming S2. */
  lemma ExampleUsedUpActorRefused()
    ensures var a := Show(100, [Actor(1, Main), Actor(2, Supporting)]);
            var b := Show(200, [Actor(2, Supporting), Actor(3, Main)]);
            Decide([Round(1, a, [], map[])], map[2 := 3], b)
            == Reject(Overused([Actor(2, Supporting)]))
  {
    var a := Show(100, [Actor(1, Main), Actor(2, Supporting)]);
    var b := Show(200, [Actor(2, Supporting), Actor(3, Main)]);
    var prev := a.staff.value;
    var cand := b.staff.value;
    assert StaffIds(prev) == {1, 2} by {
      assert SeiyuuId(prev[0]) == 1 && SeiyuuId(prev[1]) == 2;
    }
    assert Filter(cand, SharesWith(prev)) == [cand[0]] by {
      assert Filter(cand[1..], SharesWith(prev)) == [];
    }
    assert Filter([cand[0]], UsedUp(map[2 := 3])) == [cand[0]];
  }

  /** C shares nobody with A and is refused for that reason. */
  lemma ExampleNoSharedActorRefused()
    ensures var a := Show(100, [Actor(1, Main), Actor(2, Supporting)]);
            var c := Show(300, [Actor(4, Main)]);
            Decide([Round(1, a, [], map[])], map[], c) == Reject(NoSharedVoiceActors)
  {
    var a := Show(100, [Actor(1, Main), Actor(2, Supporting)]);
    var prev := a.staff.value;
    assert StaffIds(prev) == {1, 2} by {
      assert SeiyuuId(prev[0]) == 1 && SeiyuuId(prev[1]) == 2;
    }
  }
}
