/**
 * The catalog adapter of src/lib/api/anime.ts with the HTTP requests taken
 * out: the fetched payloads are the inputs of these members.
 */
module AnimeApi {
  import opened Wrappers
  import opened Js
  import opened Seqs
  import opened Types
  import opened Jikan

  /** The role filter `role === 'Main' || role === 'Supporting'`, as the kept role. */
  function KeptRole(role: Option<string>): (r: Option<Role>)
    ensures r == Some(Main) <==> role == Some("Main")
    ensures r == Some(Supporting) <==> role == Some("Supporting")
  {
    if role == Some("Main") then Some(Main)
    else if role == Some("Supporting") then Some(Supporting)
    else None
  }

  /** The voice-actor filter `va.language === 'Japanese' && va.person`. */
  predicate JapaneseWithPerson(va: VoiceActor) {
    va.language == Some("Japanese") && va.person.Some?
  }

  /** `char.voice_actors || []` */
  function VoiceActorsOf(c: CharacterCredit): seq<VoiceActor> {
    c.voiceActors.GetOr([])
  }

  /** `char.character?.name || ''` */
  function CharacterNameOf(character: Option<Character>): string {
    OrElse(if character.Some? then character.value.name else None, "")
  }

  /** The record built for a kept voice actor of a kept character. */
  function Credit(c: CharacterCredit, role: Role, va: VoiceActor): Seiyuu
    requires va.person.Some?
  {
    var p := va.person.value;
    Seiyuu(p.malId, GetPersonName(p.name), GetImageUrl(p.images),
           Some(CharacterNameOf(c.character)), Some(role), None)
  }

  /** The records the inner loop offers to the map, in loop order. */
  function VoiceActorCredits(c: CharacterCredit, role: Role, vas: seq<VoiceActor>): seq<Seiyuu> {
    if vas == [] then []
    else
      var last := vas[|vas| - 1];
      VoiceActorCredits(c, role, vas[..|vas| - 1]) +
        (if JapaneseWithPerson(last) then [Credit(c, role, last)] else [])
  }

  /** The records one character offers: none unless its role is kept. */
  function CharacterCredits(c: CharacterCredit): seq<Seiyuu> {
    match KeptRole(c.role)
    case None => []
    case Some(role) => VoiceActorCredits(c, role, VoiceActorsOf(c))
  }

  /** Every record the nested loops offer to the map, in loop order. */
  function Credits(characters: seq<CharacterCredit>): seq<Seiyuu> {
    if characters == [] then []
    else Credits(characters[..|characters| - 1]) + CharacterCredits(characters[|characters| - 1])
  }

  lemma CreditsStep(characters: seq<CharacterCredit>, i: nat)
    requires i < |characters|
    ensures Credits(characters[..i + 1]) == Credits(characters[..i]) + CharacterCredits(characters[i])
  {
    assert characters[..i + 1][..i] == characters[..i];
  }

  lemma VoiceActorCreditsStep(c: CharacterCredit, role: Role, vas: seq<VoiceActor>, j: nat)
    requires j < |vas|
    ensures VoiceActorCredits(c, role, vas[..j + 1]) ==
            VoiceActorCredits(c, role, vas[..j]) +
              (if JapaneseWithPerson(vas[j]) then [Credit(c, role, vas[j])] else [])
  {
    assert vas[..j + 1][..j] == vas[..j];
  }

  /** The cast `extractSeiyuu` returns: the offered records, first one per person id. */
  function ExtractedCast(characters: seq<CharacterCredit>): seq<Seiyuu> {
    FirstWins(Credits(characters), SeiyuuId)
  }

  /** Voice actor `j` of character `i` passes both filters. */
  ghost predicate Qualifies(characters: seq<CharacterCredit>, i: int, j: int) {
    && 0 <= i < |characters|
    && KeptRole(characters[i].role).Some?
    && 0 <= j < |VoiceActorsOf(characters[i])|
    && JapaneseWithPerson(VoiceActorsOf(characters[i])[j])
  }

  /** The record built for voice actor `j` of character `i`. */
  function CreditAt(characters: seq<CharacterCredit>, i: int, j: int): Seiyuu
    requires Qualifies(characters, i, j)
  {
    Credit(characters[i], KeptRole(characters[i].role).value, VoiceActorsOf(characters[i])[j])
  }

  /**
   * The inner loop of `extractSeiyuu`, over the voice actors of one kept
   * character: `cast`/`seen` are the map's values and keys for the records
   * `offered` before this character.
   */
  method OfferVoiceActors(c: CharacterCredit, role: Role, ghost offered: seq<Seiyuu>,
                          cast: seq<Seiyuu>, seen: set<int>)
    returns (cast': seq<Seiyuu>, seen': set<int>)
    requires cast == FirstWins(offered, SeiyuuId) && seen == KeysOf(cast, SeiyuuId)
    ensures cast' == FirstWins(offered + VoiceActorCredits(c, role, VoiceActorsOf(c)), SeiyuuId)
    ensures seen' == KeysOf(cast', SeiyuuId)
  {
    var vas := VoiceActorsOf(c);
    cast', seen' := cast, seen;
    ghost var sofar := offered;
    assert offered + VoiceActorCredits(c, role, vas[..0]) == offered;
    var j := 0;
    while j < |vas|
      invariant 0 <= j <= |vas|
      invariant sofar == offered + VoiceActorCredits(c, role, vas[..j])
      invariant cast' == FirstWins(sofar, SeiyuuId)
      invariant seen' == KeysOf(cast', SeiyuuId)
    {
      var va := vas[j];
      VoiceActorCreditsStep(c, role, vas, j);
      if JapaneseWithPerson(va) {
        var record := Credit(c, role, va);
        cast', seen' := Offer(record, SeiyuuId, sofar, cast', seen');
        sofar := sofar + [record];
      }
      j := j + 1;
    }
    assert vas[..j] == vas;
  }

  /**
   * `extractSeiyuu(characters)`: the nested loops over characters and their
   * voice actors, filling a map keyed by person id where the first record wins;
   * the map's values in insertion order are the result.
   */
  method ExtractSeiyuu(characters: seq<CharacterCredit>) returns (cast: seq<Seiyuu>)
    ensures cast == ExtractedCast(characters)
  {
    // `seiyuuMap`: its keys are `seen`, its values in insertion order are `cast`
    var seen: set<int> := {};
    cast := [];
    var i := 0;
    while i < |characters|
      invariant 0 <= i <= |characters|
      invariant cast == FirstWins(Credits(characters[..i]), SeiyuuId)
      invariant seen == KeysOf(cast, SeiyuuId)
    {
      var c := characters[i];
      ghost var done := Credits(characters[..i]);
      CreditsStep(characters, i);
      var role := KeptRole(c.role);
      if role.Some? {
        cast, seen := OfferVoiceActors(c, role.value, done, cast, seen);
      } else {
        assert done + CharacterCredits(c) == done;
      }
      i := i + 1;
    }
    assert characters[..i] == characters;
  }

  /** Membership in the inner loop's offers. */
  lemma {:induction false} VoiceActorCreditsMembership(c: CharacterCredit, role: Role, vas: seq<VoiceActor>)
    ensures forall x :: x in VoiceActorCredits(c, role, vas) ==>
              exists j :: 0 <= j < |vas| && JapaneseWithPerson(vas[j]) && x == Credit(c, role, vas[j])
    ensures forall j :: 0 <= j < |vas| && JapaneseWithPerson(vas[j]) ==>
              Credit(c, role, vas[j]) in VoiceActorCredits(c, role, vas)
  {
    if vas != [] {
      var init := vas[..|vas| - 1];
      VoiceActorCreditsMembership(c, role, init);
      assert forall j :: 0 <= j < |init| ==> init[j] == vas[j];
    }
  }

  /** Membership in all offers: exactly the records of qualifying voice actors. */
  lemma {:induction false} CreditsMembership(characters: seq<CharacterCredit>)
    ensures forall x :: x in Credits(characters) ==>
              exists i, j :: Qualifies(characters, i, j) && x == CreditAt(characters, i, j)
    ensures forall i, j :: Qualifies(characters, i, j) ==> CreditAt(characters, i, j) in Credits(characters)
  {
    if characters != [] {
      var n := |characters| - 1;
      var init := characters[..n];
      var c := characters[n];
      CreditsMembership(init);
      assert forall i :: 0 <= i < n ==> init[i] == characters[i];
      assert forall i, j :: Qualifies(init, i, j) ==> Qualifies(characters, i, j) && CreditAt(init, i, j) == CreditAt(characters, i, j);
      if KeptRole(c.role).Some? {
        VoiceActorCreditsMembership(c, KeptRole(c.role).value, VoiceActorsOf(c));
        forall x | x in CharacterCredits(c)
          ensures exists i, j :: Qualifies(characters, i, j) && x == CreditAt(characters, i, j)
        {
          var j :| 0 <= j < |VoiceActorsOf(c)| && JapaneseWithPerson(VoiceActorsOf(c)[j])
                   && x == Credit(c, KeptRole(c.role).value, VoiceActorsOf(c)[j]);
          assert Qualifies(characters, n, j);
        }
      }
      forall i, j | Qualifies(characters, i, j)
        ensures CreditAt(characters, i, j) in Credits(characters)
      {
        if i < n {
          assert Qualifies(init, i, j);
        }
      }
    }
  }

  /**
   * What `extractSeiyuu` keeps: every record comes from a Main or Supporting
   * character and a Japanese voice actor with a person, no person id occurs
   * twice, and every such person's id occurs.
   */
  lemma ExtractedCastIsFiltered(characters: seq<CharacterCredit>)
    ensures forall m :: 0 <= m < |ExtractedCast(characters)| ==>
              exists i, j :: Qualifies(characters, i, j) && ExtractedCast(characters)[m] == CreditAt(characters, i, j)
    ensures DistinctKeys(ExtractedCast(characters), SeiyuuId)
    ensures forall i, j :: Qualifies(characters, i, j) ==>
              VoiceActorsOf(characters[i])[j].person.value.malId in StaffIds(ExtractedCast(characters))
  {
    var cast := ExtractedCast(characters);
    CreditsMembership(characters);
    forall m | 0 <= m < |cast|
      ensures exists i, j :: Qualifies(characters, i, j) && cast[m] == CreditAt(characters, i, j)
    {
      assert cast[m] in Credits(characters);
    }
    assert forall m :: 0 <= m < |cast| ==>
              exists i, j :: Qualifies(characters, i, j) && cast[m] == CreditAt(characters, i, j);
    forall i, j | Qualifies(characters, i, j)
      ensures VoiceActorsOf(characters[i])[j].person.value.malId in StaffIds(cast)
    {
      assert SeiyuuId(CreditAt(characters, i, j)) in KeysOf(Credits(characters), SeiyuuId);
    }
  }

  /**
   * For each person, `extractSeiyuu` keeps the record of the first qualifying
   * (character, voice actor) pair in loop order, which fixes `characterName`
   * and `characterRole`; and it lists persons in order of first occurrence.
   */
  lemma ExtractedCastFirstOccurrence(characters: seq<CharacterCredit>)
    ensures var offers := Credits(characters);
            var cast := ExtractedCast(characters);
            forall m :: 0 <= m < |cast| ==>
              cast[m].id in KeysOf(offers, SeiyuuId) &&
              cast[m] == offers[FirstIndex(offers, SeiyuuId, cast[m].id)]
    ensures var offers := Credits(characters);
            var cast := ExtractedCast(characters);
            forall m1, m2 :: 0 <= m1 < m2 < |cast| ==>
              cast[m1].id in KeysOf(offers, SeiyuuId) && cast[m2].id in KeysOf(offers, SeiyuuId) &&
              FirstIndex(offers, SeiyuuId, cast[m1].id) < FirstIndex(offers, SeiyuuId, cast[m2].id)
  {
    var offers := Credits(characters);
    var cast := ExtractedCast(characters);
    FirstWinsKeepsFirst(offers, SeiyuuId);
    FirstWinsKeepsOrder(offers, SeiyuuId);
    assert cast == FirstWins(offers, SeiyuuId);
    var key: Seiyuu -> int := SeiyuuId;
    forall m | 0 <= m < |cast|
      ensures cast[m].id in KeysOf(offers, SeiyuuId)
      ensures cast[m] == offers[FirstIndex(offers, SeiyuuId, cast[m].id)]
    {
      assert key(cast[m]) == cast[m].id;
    }
    forall m1, m2 | 0 <= m1 < m2 < |cast|
      ensures cast[m1].id in KeysOf(offers, SeiyuuId) && cast[m2].id in KeysOf(offers, SeiyuuId)
      ensures FirstIndex(offers, SeiyuuId, cast[m1].id) < FirstIndex(offers, SeiyuuId, cast[m2].id)
    {
      assert key(cast[m1]) == cast[m1].id && key(cast[m2]) == cast[m2].id;
    }
  }

  /**
   * `fetchAnime(id)` / `fetchRandomTopAnime()` once both payloads are in:
   * the anime record with its cast. No person appears twice in the cast.
   */
  method AnimeWithCast(anime: AnimeData, characters: seq<CharacterCredit>) returns (a: Anime)
    ensures a.id == anime.malId && a.title == anime.title && a.kind == anime.kind && a.season == anime.season
    ensures a.coverImage == GetImageUrl(anime.images)
    ensures a.year == NullToUndefined(anime.year)
    ensures a.staff == Some(ExtractedCast(characters))
    ensures DistinctKeys(a.staff.value, SeiyuuId)
  {
    var cast := ExtractSeiyuu(characters);
    a := Anime(anime.malId, anime.title, GetImageUrl(anime.images), anime.kind,
               NullToUndefined(anime.year), anime.season, Some(cast));
  }

  /** The search filter: no commercials, promotional videos, music videos or unaired entries. */
  predicate Listed(a: AnimeData) {
    && a.kind != Some("CM")
    && a.kind != Some("PV")
    && a.kind != Some("Music")
    && a.status != Some("Not yet aired")
  }

  /** A search result as the game's anime record (no cast). */
  function SearchEntry(a: AnimeData): Anime {
    Anime(a.malId, a.title, GetImageUrl(a.images), a.kind, NullToUndefined(a.year), a.season, None)
  }

  /** `.map(...)` of the kept search results, in order. */
  function SearchEntries(kept: seq<AnimeData>): (r: seq<Anime>)
    ensures |r| == |kept|
    ensures forall k :: 0 <= k < |kept| ==> r[k] == SearchEntry(kept[k])
  {
    if kept == [] then [] else [SearchEntry(kept[0])] + SearchEntries(kept[1..])
  }

  /**
   * The post-processing of `searchAnime(query)`: filter, then map. Every
   * listed result is mapped, nothing else is, and nothing is added.
   */
  function SearchResults(results: seq<AnimeData>): (r: seq<Anime>)
    ensures |r| <= |results|
    ensures forall i :: 0 <= i < |results| && Listed(results[i]) ==> SearchEntry(results[i]) in r
    ensures forall k :: 0 <= k < |r| ==>
              exists a :: a in results && Listed(a) && r[k] == SearchEntry(a)
  {
    var kept := Filter(results, Listed);
    var r := SearchEntries(kept);
    assert forall i :: 0 <= i < |results| && Listed(results[i]) ==>
             exists k :: 0 <= k < |kept| && kept[k] == results[i] && r[k] == SearchEntry(results[i]);
    r
  }

  /** The filter drops exactly the unlisted results. */
  lemma SearchFilterDropsExactly(results: seq<AnimeData>)
    ensures forall a :: a in Filter(results, Listed) <==> a in results && Listed(a)
  {
    var kept := Filter(results, Listed);
    forall a | a in results && Listed(a) ensures a in kept {
      var i :| 0 <= i < |results| && results[i] == a;
    }
  }

  /** Search results keep their relative order: results are processed piecewise. */
  lemma {:induction false} SearchResultsConcat(xs: seq<AnimeData>, ys: seq<AnimeData>)
    ensures SearchResults(xs + ys) == SearchResults(xs) + SearchResults(ys)
  {
    FilterConcat(xs, ys, Listed);
    SearchEntriesConcat(Filter(xs, Listed), Filter(ys, Listed));
  }

  lemma {:induction false} SearchEntriesConcat(xs: seq<AnimeData>, ys: seq<AnimeData>)
    ensures SearchEntries(xs + ys) == SearchEntries(xs) + SearchEntries(ys)
  {
    if xs == [] {
      assert xs + ys == ys;
    } else {
      assert (xs + ys)[1..] == xs[1..] + ys;
      SearchEntriesConcat(xs[1..], ys);
    }
  }
}
