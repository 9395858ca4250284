/**
 * The catalog client of src/lib/utils/mal.ts with the HTTP requests taken out.
 * Its `getImageUrl` and `getPersonName` are the same code as in
 * src/lib/api/anime.ts (`Jikan.GetImageUrl`, `Jikan.GetPersonName`), and the
 * voice-actor loop of its `fetchAnime` is the same code as `extractSeiyuu`
 * (`AnimeApi.ExtractSeiyuu`); this module states their rules once more
 * against the copies here and adds what only this file does.
 */
module MalUtils {
  import opened Wrappers
  import opened Js
  import opened Seqs
  import opened Types
  import opened Jikan
  import AnimeApi

  /** `titles.find(t => t.type === kind)`: the first entry of that type. */
  function FindKind(entries: seq<TitleEntry>, kind: string): (found: Option<nat>)
    ensures found.Some? ==> found.value < |entries| && entries[found.value].kind == Some(kind)
                            && forall j :: 0 <= j < found.value ==> entries[j].kind != Some(kind)
    ensures found.None? ==> forall j :: 0 <= j < |entries| ==> entries[j].kind != Some(kind)
  {
    if entries == [] then None
    else if entries[0].kind == Some(kind) then Some(0)
    else
      match FindKind(entries[1..], kind)
      case None => None
      case Some(k) => Some(k + 1)
  }

  /** `entry?.title` for the entry at an optional position. */
  function TitleAt(entries: seq<TitleEntry>, at: Option<nat>): Option<string>
    requires at.Some? ==> at.value < |entries|
  {
    if at.Some? then entries[at.value].title else None
  }

  /** The three titles an array of titles is tried for, most preferred first. */
  function ListCandidates(entries: seq<TitleEntry>): seq<Option<string>> {
    [ TitleAt(entries, FindKind(entries, "English")),
      TitleAt(entries, FindKind(entries, "Default")),
      if entries == [] then None else entries[0].title ]
  }

  lemma FirstTruthyOfThree(a: Option<string>, b: Option<string>, c: Option<string>)
    ensures FirstTruthy([a, b, c]) == OrElse(a, OrElse(b, OrElse(c, "")))
  {
    assert [c][1..] == [];
    assert FirstTruthy([c]) == OrElse(c, "");
    assert [b, c][1..] == [c];
    assert FirstTruthy([b, c]) == OrElse(b, FirstTruthy([c]));
    assert [a, b, c][1..] == [b, c];
  }

  lemma FirstTruthyOfTwo(a: Option<string>, b: Option<string>)
    ensures FirstTruthy([a, b]) == OrElse(a, OrElse(b, ""))
  {
    assert [b][1..] == [];
    assert FirstTruthy([b]) == OrElse(b, "");
    assert [a, b][1..] == [b];
  }

  /**
   * `getPreferredTitle(titles)`: `''` when missing; a string as it is; for an
   * array, the first English entry's title, else the first Default entry's,
   * else the first entry's, else `''`; for an object, `english`, else
   * `default`, else `''`.
   */
  function GetPreferredTitle(titles: Titles): (title: string)
    ensures titles.TitlesAbsent? ==> title == ""
    ensures titles.TitlesText? ==> title == titles.text
    ensures titles.TitlesList? ==> title == FirstTruthy(ListCandidates(titles.entries))
    ensures titles.TitlesObject? ==> title == FirstTruthy([titles.english, titles.defaultTitle])
  {
    match titles
    case TitlesAbsent => ""
    case TitlesText(s) => if s == "" then "" else s
    case TitlesList(entries) =>
      var english := TitleAt(entries, FindKind(entries, "English"));
      var defaultTitle := TitleAt(entries, FindKind(entries, "Default"));
      var first := if entries == [] then None else entries[0].title;
      FirstTruthyOfThree(english, defaultTitle, first);
      OrElse(english, OrElse(defaultTitle, OrElse(first, "")))
    case TitlesObject(english, defaultTitle) =>
      FirstTruthyOfTwo(english, defaultTitle);
      OrElse(english, OrElse(defaultTitle, ""))
  }

  /**
   * The image rule of this file's `getImageUrl`: `''` exactly when `images`
   * is missing or none of the four urls is set, and otherwise the first set
   * one in the order large jpg, jpg, large webp, webp.
   */
  lemma ImageUrlRule(images: Option<Images>)
    ensures GetImageUrl(images) == "" <==>
              images.None? || forall k :: 0 <= k < 4 ==> !Truthy(ImageCandidates(images.value)[k])
    ensures GetImageUrl(images) != "" ==>
              exists k :: 0 <= k < 4 && ImageCandidates(images.value)[k] == Some(GetImageUrl(images))
                && forall j :: 0 <= j < k ==> !Truthy(ImageCandidates(images.value)[j])
  {
  }

  /** The name rule of this file's `getPersonName`. */
  lemma PersonNameRule(name: PersonName)
    ensures name.NameAbsent? ==> GetPersonName(name) == ""
    ensures name.NameText? ==> GetPersonName(name) == name.text
    ensures name.NameObject? && Truthy(name.name) ==> GetPersonName(name) == name.name.value
    ensures name.NameObject? && !Truthy(name.name) ==> GetPersonName(name) == ""
  {
  }

  /**
   * `fetchAnime(id)` once both payloads are in: the preferred title, the
   * cover, `type`, `year ?? undefined`, and the cast (`voiceActors`) built by
   * the same loop as `extractSeiyuu`. No person appears twice in the cast.
   */
  method FetchAnimeRecord(anime: AnimeData, characters: seq<CharacterCredit>) returns (a: Anime)
    ensures a.id == anime.malId
    ensures a.title == GetPreferredTitle(anime.titles)
    ensures a.coverImage == GetImageUrl(anime.images)
    ensures a.kind == anime.kind && a.season.None?
    ensures a.year.Some? <==> anime.year.Defined?
    ensures anime.year.Defined? ==> a.year.value == anime.year.value
    ensures a.staff == Some(AnimeApi.ExtractedCast(characters))
    ensures DistinctKeys(a.staff.value, SeiyuuId)
  {
    var cast := AnimeApi.ExtractSeiyuu(characters);
    a := Anime(anime.malId, GetPreferredTitle(anime.titles), GetImageUrl(anime.images),
               anime.kind, NullToUndefined(anime.year), None, Some(cast));
  }

  /** The anime record nested in a role: `type` and `year` are left undefined. */
  function RoleAnimeRecord(ra: RoleAnime): (a: Anime)
    ensures a.id == ra.malId
    ensures a.title == GetPreferredTitle(ra.titles) && a.coverImage == GetImageUrl(ra.images)
    ensures a.kind.None? && a.year.None? && a.season.None? && a.staff.None?
  {
    Anime(ra.malId, GetPreferredTitle(ra.titles), GetImageUrl(ra.images), None, None, None, None)
  }

  /** The record built for a kept voice role. */
  function RoleRecord(vr: VoiceRole, role: Role): AnimeRole
    requires vr.anime.Some?
  {
    AnimeRole(RoleAnimeRecord(vr.anime.value), AnimeApi.CharacterNameOf(vr.character), role)
  }

  /** A voice role is kept when its role is Main or Supporting and it has an anime. */
  predicate KeptVoiceRole(vr: VoiceRole) {
    AnimeApi.KeptRole(vr.role).Some? && vr.anime.Some?
  }

  /** The records the loop of `fetchSeiyuu` offers to its map, in loop order. */
  function RoleOffers(voiceRoles: seq<VoiceRole>): seq<AnimeRole> {
    if voiceRoles == [] then []
    else
      var last := voiceRoles[|voiceRoles| - 1];
      RoleOffers(voiceRoles[..|voiceRoles| - 1]) +
        (if KeptVoiceRole(last) then [RoleRecord(last, AnimeApi.KeptRole(last.role).value)] else [])
  }

  /** The map key of a role: the id of its anime. */
  function RoleKey(r: AnimeRole): int { r.anime.id }

  /** The roles `fetchSeiyuu` returns: the offered records, first one per anime id. */
  function AnimeRolesOf(voiceRoles: seq<VoiceRole>): seq<AnimeRole> {
    FirstWins(RoleOffers(voiceRoles), RoleKey)
  }

  lemma RoleOffersStep(voiceRoles: seq<VoiceRole>, i: nat)
    requires i < |voiceRoles|
    ensures RoleOffers(voiceRoles[..i + 1]) ==
            RoleOffers(voiceRoles[..i]) +
              (if KeptVoiceRole(voiceRoles[i])
               then [RoleRecord(voiceRoles[i], AnimeApi.KeptRole(voiceRoles[i].role).value)] else [])
  {
    assert voiceRoles[..i + 1][..i] == voiceRoles[..i];
  }

  /**
   * The loop of `fetchSeiyuu(id)` over the person's voice roles: keep Main
   * and Supporting roles that have an anime, one per anime id, first one wins;
   * the map's values in insertion order are the result.
   */
  method CollectAnimeRoles(voiceRoles: seq<VoiceRole>) returns (roles: seq<AnimeRole>)
    ensures roles == AnimeRolesOf(voiceRoles)
  {
    // `animeMap`: its keys are `seen`, its values in insertion order are `roles`
    var seen: set<int> := {};
    roles := [];
    var i := 0;
    while i < |voiceRoles|
      invariant 0 <= i <= |voiceRoles|
      invariant roles == FirstWins(RoleOffers(voiceRoles[..i]), RoleKey)
      invariant seen == KeysOf(roles, RoleKey)
    {
      var vr := voiceRoles[i];
      ghost var offered := RoleOffers(voiceRoles[..i]);
      ghost var next := RoleOffers(voiceRoles[..i + 1]);
      RoleOffersStep(voiceRoles, i);
      var role := AnimeApi.KeptRole(vr.role);
      if role.Some? && vr.anime.Some? {
        var record := RoleRecord(vr, role.value);
        assert next == offered + [record];
        roles, seen := Offer(record, RoleKey, offered, roles, seen);
      } else {
        assert next == offered;
      }
      assert roles == FirstWins(next, RoleKey);
      i := i + 1;
    }
    assert voiceRoles[..i] == voiceRoles;
  }

  /** Membership in the offers: exactly the records of kept voice roles. */
  lemma {:induction false} RoleOffersMembership(voiceRoles: seq<VoiceRole>)
    ensures forall x :: x in RoleOffers(voiceRoles) ==>
              exists i :: 0 <= i < |voiceRoles| && KeptVoiceRole(voiceRoles[i]) &&
                          x == RoleRecord(voiceRoles[i], AnimeApi.KeptRole(voiceRoles[i].role).value)
    ensures forall i :: 0 <= i < |voiceRoles| && KeptVoiceRole(voiceRoles[i]) ==>
              RoleRecord(voiceRoles[i], AnimeApi.KeptRole(voiceRoles[i].role).value) in RoleOffers(voiceRoles)
  {
    if voiceRoles != [] {
      var init := voiceRoles[..|voiceRoles| - 1];
      RoleOffersMembership(init);
      assert forall i :: 0 <= i < |init| ==> init[i] == voiceRoles[i];
    }
  }

  /**
   * What `fetchSeiyuu` keeps: every role comes from a Main or Supporting
   * voice role with an anime, no anime id occurs twice, every kept voice
   * role's anime occurs, and every nested anime has `type` and `year` undefined.
   */
  lemma AnimeRolesAreFiltered(voiceRoles: seq<VoiceRole>)
    ensures forall m :: 0 <= m < |AnimeRolesOf(voiceRoles)| ==>
              exists i :: 0 <= i < |voiceRoles| && KeptVoiceRole(voiceRoles[i]) &&
                AnimeRolesOf(voiceRoles)[m] == RoleRecord(voiceRoles[i], AnimeApi.KeptRole(voiceRoles[i].role).value)
    ensures DistinctKeys(AnimeRolesOf(voiceRoles), RoleKey)
    ensures forall i :: 0 <= i < |voiceRoles| && KeptVoiceRole(voiceRoles[i]) ==>
              voiceRoles[i].anime.value.malId in KeysOf(AnimeRolesOf(voiceRoles), RoleKey)
    ensures forall m :: 0 <= m < |AnimeRolesOf(voiceRoles)| ==>
              AnimeRolesOf(voiceRoles)[m].anime.kind.None? && AnimeRolesOf(voiceRoles)[m].anime.year.None?
  {
    var roles := AnimeRolesOf(voiceRoles);
    RoleOffersMembership(voiceRoles);
    forall m | 0 <= m < |roles|
      ensures exists i :: 0 <= i < |voiceRoles| && KeptVoiceRole(voiceRoles[i]) &&
                roles[m] == RoleRecord(voiceRoles[i], AnimeApi.KeptRole(voiceRoles[i].role).value)
    {
      assert roles[m] in RoleOffers(voiceRoles);
    }
    assert forall m :: 0 <= m < |roles| ==>
             exists i :: 0 <= i < |voiceRoles| && KeptVoiceRole(voiceRoles[i]) &&
               roles[m] == RoleRecord(voiceRoles[i], AnimeApi.KeptRole(voiceRoles[i].role).value);
    forall i | 0 <= i < |voiceRoles| && KeptVoiceRole(voiceRoles[i])
      ensures voiceRoles[i].anime.value.malId in KeysOf(roles, RoleKey)
    {
      var record := RoleRecord(voiceRoles[i], AnimeApi.KeptRole(voiceRoles[i].role).value);
      assert RoleKey(record) in KeysOf(RoleOffers(voiceRoles), RoleKey);
    }
  }

  /** For each anime, `fetchSeiyuu` keeps the first kept voice role, in order of first occurrence. */
  lemma AnimeRolesFirstOccurrence(voiceRoles: seq<VoiceRole>)
    ensures var offers := RoleOffers(voiceRoles);
            var roles := AnimeRolesOf(voiceRoles);
            forall m :: 0 <= m < |roles| ==>
              roles[m].anime.id in KeysOf(offers, RoleKey) &&
              roles[m] == offers[FirstIndex(offers, RoleKey, roles[m].anime.id)]
    ensures var offers := RoleOffers(voiceRoles);
            var roles := AnimeRolesOf(voiceRoles);
            forall m1, m2 :: 0 <= m1 < m2 < |roles| ==>
              roles[m1].anime.id in KeysOf(offers, RoleKey) && roles[m2].anime.id in KeysOf(offers, RoleKey) &&
              FirstIndex(offers, RoleKey, roles[m1].anime.id) < FirstIndex(offers, RoleKey, roles[m2].anime.id)
  {
    var offers := RoleOffers(voiceRoles);
    var roles := AnimeRolesOf(voiceRoles);
    FirstWinsKeepsFirst(offers, RoleKey);
    FirstWinsKeepsOrder(offers, RoleKey);
    assert roles == FirstWins(offers, RoleKey);
    var key: AnimeRole -> int := RoleKey;
    forall m | 0 <= m < |roles|
      ensures roles[m].anime.id in KeysOf(offers, RoleKey)
      ensures roles[m] == offers[FirstIndex(offers, RoleKey, roles[m].anime.id)]
    {
      assert key(roles[m]) == roles[m].anime.id;
    }
    forall m1, m2 | 0 <= m1 < m2 < |roles|
      ensures roles[m1].anime.id in KeysOf(offers, RoleKey) && roles[m2].anime.id in KeysOf(offers, RoleKey)
      ensures FirstIndex(offers, RoleKey, roles[m1].anime.id) < FirstIndex(offers, RoleKey, roles[m2].anime.id)
    {
      assert key(roles[m1]) == roles[m1].anime.id && key(roles[m2]) == roles[m2].anime.id;
    }
  }

  /** `fetchSeiyuu(id)` once both payloads are in: the person with their anime roles. */
  method FetchSeiyuuRecord(person: Person, voiceRoles: seq<VoiceRole>) returns (s: Seiyuu)
    ensures s.id == person.malId
    ensures s.name == GetPersonName(person.name) && s.image == GetImageUrl(person.images)
    ensures s.characterName.None? && s.characterRole.None?
    ensures s.animeRoles == Some(AnimeRolesOf(voiceRoles))
    ensures DistinctKeys(s.animeRoles.value, RoleKey)
  {
    var roles := CollectAnimeRoles(voiceRoles);
    s := Seiyuu(person.malId, GetPersonName(person.name), GetImageUrl(person.images), None, None, Some(roles));
  }

  /** A search result of this file's `searchAnime`: preferred title, `year ?? undefined`. */
  function SearchEntry(a: AnimeData): Anime {
    Anime(a.malId, GetPreferredTitle(a.titles), GetImageUrl(a.images), a.kind, NullToUndefined(a.year), None, None)
  }

  /**
   * The mapping of this file's `searchAnime`: one record per result, in
   * order, with nothing filtered out and `null` years made undefined.
   */
  function SearchResults(results: seq<AnimeData>): (r: seq<Anime>)
    ensures |r| == |results|
    ensures forall i :: 0 <= i < |r| ==>
              && r[i].id == results[i].malId
              && r[i].title == GetPreferredTitle(results[i].titles)
              && r[i].coverImage == GetImageUrl(results[i].images)
              && r[i].kind == results[i].kind
              && (r[i].year.Some? <==> results[i].year.Defined?)
              && (results[i].year.Defined? ==> r[i].year.value == results[i].year.value)
              && r[i].season.None? && r[i].staff.None?
  {
    seq(|results|, i requires 0 <= i < |results| => SearchEntry(results[i]))
  }

  /** The mapping of `searchStaff`: one person record per result, in order. */
  function StaffResults(results: seq<Person>): (r: seq<Seiyuu>)
    ensures |r| == |results|
    ensures forall i :: 0 <= i < |r| ==>
              r[i].id == results[i].malId && r[i].name == GetPersonName(results[i].name)
              && r[i].image == GetImageUrl(results[i].images) && r[i].animeRoles.None?
  {
    seq(|results|, i requires 0 <= i < |results| =>
      Seiyuu(results[i].malId, GetPersonName(results[i].name), GetImageUrl(results[i].images), None, None, None))
  }
}
