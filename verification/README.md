# Seiyuu chain game: a verified model of its core

The repository is a browser game. The player builds a chain of anime in which
each anime must share at least one Japanese voice actor (a *seiyuu*) with the
anime before it. Under the "Genre Hunt" rules, one voice actor may justify at
most three links in a session, and the game ends at round ten.

This project models four parts of that game in Dafny and proves properties of
each:

* **The linking engine.** This is `src/lib/modes/genreHunt.ts`, modelled in
  module `GenreHunt`.
  * `Decide` states the whole accept/refuse rule as a function, with the checks
    in the order the code makes them.
  * `GameDetails.TryAddRound` is the imperative operation on the session
    object. Its contract is that it does exactly what `Decide` says.
  * The lemmas state what the rule guarantees about the chain:
    * rounds are numbered 1, 2, …;
    * no anime is played twice;
    * every link is justified;
    * the usage counts equal the credits given;
    * no count passes the cap.
* **The catalog normalisation.** This covers `src/lib/api/anime.ts` and
  `src/lib/utils/mal.ts`, modelled in modules `Jikan`, `AnimeApi` and
  `MalUtils`.
  * Loose catalog JSON becomes the game's `Anime`/`Seiyuu` records.
  * The per-anime cast is the Japanese voice actors of main and supporting
    characters, de-duplicated by person id, first occurrence first.
  * A seiyuu's role list is de-duplicated by anime id in the same way.
  * The fallback chains pick image URLs, names and titles.
  * Search results are filtered and mapped.
* **The result cache.** This is `src/lib/cache/index.ts`, modelled in module
  `Cache`.
  * `localStorage` is a map owned by a `LocalCache` object.
  * The proofs cover key construction, expiry, oldest-first eviction with the
    100-entry limit, clearing, and statistics.
* **Shared building blocks.**
  * `Wrappers` provides `Option`.
  * `Js` provides JavaScript falsiness, `||` and `?? undefined`.
  * `Seqs` provides `Array.prototype.filter` as `Filter`.
  * `Seqs.FirstWins` is the values of a `Map` filled with "set only if the
    key is new".
  * `Types` holds the game's records from `src/lib/types/game.ts`.

Some things are parameters rather than calls:

* The clock (`Date.now()`) is the `now` parameter.
* `isBrowser()` is the cache object's `browser` flag.
* The HTTP responses are the inputs of the normalisation members.

The model follows the code as written:

* `isGameOver` tests `rounds.length === 10` (see Findings).
* The source files disagree on the name of the cast list. The engine and
  `api/anime.ts` call it `staff`, while `types/game.ts` and `utils/mal.ts`
  call it `voiceActors`. Here both are the one `staff` field; "## Left out"
  says what that changes.

## Model

| member | source | states |
|---|---|---|
| Js.OrElse | src/lib/api/anime.ts:25 | `s \|\| fallback`: the field itself when it is a non-empty string, otherwise the fallback |
| Js.NullToUndefined | src/lib/utils/mal.ts:114 | `?? undefined`: a value is present exactly when the payload held a non-null, defined one, and it is that value |
| Js.FirstTruthy | src/lib/utils/mal.ts:41 | a `a \|\| b \|\| … \|\| ''` chain is empty exactly when every candidate is falsy; otherwise it is the first truthy candidate, and every earlier one is falsy |
| Seqs.Filter | src/lib/modes/genreHunt.ts:14-20 | `filter` keeps exactly the elements that satisfy the predicate, each from the input, never more than the input |
| Seqs.FilterFilter | src/lib/modes/genreHunt.ts:81-91 | filtering by p and then by q is filtering once by "p and q" |
| Seqs.FilterKeepsAll | src/lib/modes/genreHunt.ts:102-106 | a filter every element passes returns its input unchanged |
| Seqs.FilterKeepsDistinct | src/lib/modes/genreHunt.ts:14-20 | a filter of a list with distinct ids has distinct ids |
| Seqs.FilterConcat | src/lib/api/anime.ts:72-77 | filtering distributes over concatenation |
| Seqs.FirstWins | src/lib/api/anime.ts:29-52 | the values of a map filled with "set if the key is new": elements of the input, the same key set as the input, and each key once |
| Seqs.Offer | src/lib/api/anime.ts:39-47 | one `has`/`set` step of the map: the new values and keys are those of first-wins over everything offered, this element included |
| Seqs.FirstWinsStep | src/lib/api/anime.ts:39-47 | one `has`/`set` step: a seen key leaves the values alone; a new key is appended and joins the key set |
| Seqs.FirstWinsKeepsFirst | src/lib/api/anime.ts:39-47 | each kept value is the first offered element with its key |
| Seqs.FirstWinsKeepsOrder | src/lib/api/anime.ts:52 | kept values appear in the order their keys were first offered (`Array.from(map.values())`) |
| Jikan.GetImageUrl | src/lib/api/anime.ts:8-20 | missing images give `''`; otherwise the result is the first truthy of jpg large, jpg, webp large and webp URLs, or `''` |
| Jikan.FirstTruthyOfFour | src/lib/api/anime.ts:14-19 | the four-step `if` chain equals the first-truthy rule over its four candidates |
| Jikan.GetPersonName | src/lib/api/anime.ts:22-26 | a missing name gives `''`, a string is returned as is, and an object gives its `name` or `''` |
| AnimeApi.KeptRole | src/lib/api/anime.ts:32-34 | a character is kept exactly when its role is `Main` or `Supporting`, and keeps that role |
| AnimeApi.OfferVoiceActors | src/lib/api/anime.ts:36-49 | the inner loop leaves the map's values equal to first-wins over everything offered so far plus this character's Japanese voice actors that have a person |
| AnimeApi.ExtractSeiyuu | src/lib/api/anime.ts:28-53 | the nested loop returns exactly `ExtractedCast`: first-wins by person id over the credits of kept characters, in loop order |
| AnimeApi.VoiceActorCreditsMembership | src/lib/api/anime.ts:37-48 | a character's offered records are exactly the records of its Japanese voice actors that have a person |
| AnimeApi.CreditsMembership | src/lib/api/anime.ts:31-50 | the offered records are exactly those of qualifying (kept character, Japanese voice actor with person) pairs |
| AnimeApi.ExtractedCastIsFiltered | src/lib/api/anime.ts:28-53 | every cast member comes from a qualifying pair, no person appears twice, and every qualifying person appears |
| AnimeApi.ExtractedCastFirstOccurrence | src/lib/api/anime.ts:39-52 | each cast member is the first record offered for that person, which fixes its character name and role, and the cast is in order of first offer |
| AnimeApi.AnimeWithCast | src/lib/api/anime.ts:114-123 | the fetched anime keeps id, title, type and season, takes its cover from the image rule, has a year exactly when the payload's is non-null, and carries the extracted cast with distinct ids |
| AnimeApi.SearchEntries | src/lib/api/anime.ts:79-87 | the mapping gives one record per kept result, in order |
| AnimeApi.SearchResults | src/lib/api/anime.ts:72-87 | every listed result (not CM/PV/Music, not "Not yet aired") is mapped, and every record comes from a listed result |
| AnimeApi.SearchFilterDropsExactly | src/lib/api/anime.ts:72-77 | the filter keeps an entry if and only if it is listed |
| AnimeApi.SearchResultsConcat | src/lib/api/anime.ts:72-87 | the search results of two pages concatenated are the concatenation of their results |
| AnimeApi.SearchEntriesConcat | src/lib/api/anime.ts:79-87 | the mapping distributes over concatenation |
| MalUtils.FindKind | src/lib/utils/mal.ts:39-40 | `find` by title type gives the first entry of that type, or nothing when none has it |
| MalUtils.FirstTruthyOfThree | src/lib/utils/mal.ts:41 | the three-way `\|\|` chain of titles is the first-truthy rule over its candidates |
| MalUtils.FirstTruthyOfTwo | src/lib/utils/mal.ts:45 | the two-way `\|\|` chain of titles is the first-truthy rule over its candidates |
| MalUtils.GetPreferredTitle | src/lib/utils/mal.ts:33-46 | missing titles give `''`; a string is returned; a list prefers English, then Default, then the first entry; an object prefers `english`, then `default` |
| MalUtils.ImageUrlRule | src/lib/utils/mal.ts:13-27 | this file's image helper gives `''` exactly when images are missing or all four URLs are falsy, and otherwise the first truthy URL in preference order |
| MalUtils.PersonNameRule | src/lib/utils/mal.ts:52-56 | this file's name helper returns a string name, the truthy `name` of an object, or `''` |
| MalUtils.FetchAnimeRecord | src/lib/utils/mal.ts:83-116 | the record keeps id and type, takes the preferred title and cover image, has a year exactly when the payload's is non-null, has no season, and carries the de-duplicated cast |
| MalUtils.RoleAnimeRecord | src/lib/utils/mal.ts:157-163 | a role's anime keeps its id, takes the preferred title and the cover from the helpers, and has no type, year, season or cast |
| MalUtils.CollectAnimeRoles | src/lib/utils/mal.ts:146-168 | the loop returns exactly `AnimeRolesOf`: first-wins by anime id over the kept roles, in loop order |
| MalUtils.RoleOffersMembership | src/lib/utils/mal.ts:149-167 | the offered roles are exactly those of voice roles that are Main or Supporting and have an anime |
| MalUtils.AnimeRolesAreFiltered | src/lib/utils/mal.ts:146-174 | every returned role comes from a kept voice role, no anime appears twice, every kept anime appears, and none has a type or year |
| MalUtils.AnimeRolesFirstOccurrence | src/lib/utils/mal.ts:155-167 | each returned role is the first kept role for its anime, in first-occurrence order |
| MalUtils.FetchSeiyuuRecord | src/lib/utils/mal.ts:170-175 | the record keeps the person id and takes name and image from the helpers; it has no character fields and carries the de-duplicated roles |
| MalUtils.SearchResults | src/lib/utils/mal.ts:199-205 | one record per result, in order, with its id, the preferred title, the cover from the image rule, its `type`, the payload's year exactly when it is non-null, no season and no cast |
| MalUtils.StaffResults | src/lib/utils/mal.ts:227-231 | one record per person, in order, with id, name and image from the helpers and no roles |
| GenreHunt.CreditedCounts | src/lib/modes/genreHunt.ts:30-34 | after crediting, each voice actor's count is the old count (0 if absent) plus the number of times they were credited |
| GenreHunt.CreditedShape | src/lib/modes/genreHunt.ts:27-36 | the session map gains exactly the credited ids; the round map holds exactly the credited ids, with the same counts as the session map |
| GenreHunt.UpdateStaffUsage | src/lib/modes/genreHunt.ts:23-37 | the loop returns the credited session map and the round map: old keys plus credited ids, each count raised by its number of credits, and round counts equal to session counts |
| GenreHunt.CountDistinct | src/lib/modes/genreHunt.ts:30-34 | a list with distinct ids credits each voice actor at most once |
| GenreHunt.ValidOverlappingStaff | src/lib/modes/genreHunt.ts:5-21 | empty when either anime lacks staff; otherwise every member is one of the candidate's staff who appears in the last anime and has count below 3, and every such staff member is included |
| GenreHunt.GameDetails.TryAddRound | src/lib/modes/genreHunt.ts:56-123 | the call returns `Decide`'s verdict. On acceptance it appends the round and replaces the usage map; on refusal rounds and usage are unchanged, so repeating the same call is refused again for the same reason |
| GenreHunt.Decide | src/lib/modes/genreHunt.ts:56-123 | no contract of its own: it is the pure statement of `tryAddRound`. Its behaviour is stated by `AcceptedExactly`, `DuplicateRefusedFirst`, `MissingStaffRefused`, `NoSharedVoiceActorRefused`, `OverusedNamesExactlyTheUsedUp`, `CannotBeLinkedIsUnreachable`, `AcceptedLinkCreditsAllSharedStaff` and `DecideKeepsChainValid` |
| GenreHunt.AcceptedExactly | src/lib/modes/genreHunt.ts:56-123 | a candidate is accepted exactly when it has not been played and either opens the session, or both cast lists are present, it shares at least one voice actor with the last anime and none of those shared is at the cap |
| GenreHunt.DuplicateRefusedFirst | src/lib/modes/genreHunt.ts:57-60 | an anime already played at any earlier round is refused as a duplicate, whatever its staff |
| GenreHunt.MissingStaffRefused | src/lib/modes/genreHunt.ts:74-77 | after round 1, a new anime is refused for missing staff information exactly when it or the last anime has no cast list |
| GenreHunt.NoSharedVoiceActorRefused | src/lib/modes/genreHunt.ts:79-85 | with both cast lists present, a new anime is refused for sharing nobody exactly when none of its cast appears in the last anime's cast |
| GenreHunt.FirstRoundNeedsNoLink | src/lib/modes/genreHunt.ts:62-70 | the first anime of a session is always accepted as round 1 with no staff credited and usage unchanged, with or without staff data |
| GenreHunt.OverusedNamesExactlyTheUsedUp | src/lib/modes/genreHunt.ts:87-99 | for a new candidate with staff on both sides, when some shared voice actor has count 3 or more, the refusal lists exactly those shared voice actors, in candidate order |
| GenreHunt.NoneUsedUpMeansAllEligible | src/lib/modes/genreHunt.ts:87-106 | when no shared voice actor is used up, the valid overlapping staff are all the shared staff |
| GenreHunt.CannotBeLinkedIsUnreachable | src/lib/modes/genreHunt.ts:108-110 | no candidate is ever refused with the final "cannot be linked": that branch is dead |
| GenreHunt.AcceptedLinkCreditsAllSharedStaff | src/lib/modes/genreHunt.ts:80-106 | an accepted link after round 1 credits exactly the voice actors both anime share, in candidate order; there is at least one, and all are below the cap |
| GenreHunt.UsageNeverDecreases | src/lib/modes/genreHunt.ts:112-120 | accepting a round never removes a voice actor from the usage map or lowers a count |
| GenreHunt.CreditingKeepsCap | src/lib/modes/genreHunt.ts:14-20 | crediting distinct voice actors that are all below 3 keeps every count between 1 and 3 |
| GenreHunt.AppendKeepsChainValid | src/lib/modes/genreHunt.ts:118-120 | appending a correctly numbered, new, linked round with its credits keeps the session well-formed |
| GenreHunt.DecideKeepsChainValid | src/lib/modes/genreHunt.ts:56-123 | if the candidate's staff ids are distinct, accepting it keeps a well-formed session (`ChainValid`) well-formed: rounds numbered 1, 2, … without gaps, no anime played twice, every later round linked by shared staff, the usage map counting exactly the credits of all rounds, every count between 1 and 3 |
| GenreHunt.GameDetails.constructor | src/lib/modes/genreHunt.ts:62-70 | a new session has no rounds and no usage, and is well-formed |
| GenreHunt.GameDetails.IsGameOver | src/lib/modes/genreHunt.ts:124 | no contract of its own: true exactly when the last round played is numbered 10, as written. Its properties are stated by `GameOverAtFinalRound` and `GameOverLapsesAsWritten` |
| GenreHunt.GameOverAtFinalRound | src/lib/modes/genreHunt.ts:124 | in a well-formed session, `isGameOver` holds exactly when the last round played is numbered 10 |
| GenreHunt.GameOverLapsesAsWritten | src/lib/modes/genreHunt.ts:124 | with the `=== 10` test, a well-formed ten-round session is over, an eleventh linked anime is still accepted, the session stays well-formed, and it is then no longer over |
| GenreHunt.GameOverStaysOver | src/lib/modes/genreHunt.ts:124 | with an "at least ten rounds" test, a finished session stays finished whatever is linked next |
| GenreHunt.GameOverOnceFinalRoundPlayed | src/lib/modes/genreHunt.ts:124 | with the "at least ten" test, a well-formed session is over exactly when some round is numbered 10 |
| GenreHunt.ExampleSharedActorLinks | src/lib/modes/genreHunt.ts:80-122 | linking B (S2, S3) after A (S1, S2) with no usage credits S2 alone, and S2's count becomes 1 |
| GenreHunt.ExampleUsedUpActorRefused | src/lib/modes/genreHunt.ts:88-98 | the same link with S2 already at 3 is refused, naming S2 |
| GenreHunt.ExampleNoSharedActorRefused | src/lib/modes/genreHunt.ts:81-85 | a candidate sharing nobody with A is refused for having no shared voice actors |
| Cache.NatToDecimal | src/lib/cache/index.ts:22 | `${id}` of a natural number is a non-empty string of decimal digits |
| Cache.IntToDecimal | src/lib/cache/index.ts:22 | `${id}` of an integer starts with `-` exactly when the id is negative |
| Cache.DecimalRoundTrip | src/lib/cache/index.ts:22 | reading the printed digits back gives the id |
| Cache.IntToDecimalInjective | src/lib/cache/index.ts:22 | distinct ids print to distinct strings |
| Cache.Prefix | src/lib/cache/index.ts:101 | `cache:${type}:` is seven characters longer than the type name |
| Cache.CacheKey | src/lib/cache/index.ts:21-23 | a key starts with its category's prefix and ends with the printed id |
| Cache.PrefixesDisjoint | src/lib/cache/index.ts:101 | no key starts with both the anime and the seiyuu prefix |
| Cache.CacheKeyInjective | src/lib/cache/index.ts:21-23 | two (category, id) pairs share a key only if they are equal |
| Cache.IsExpired | src/lib/cache/index.ts:26-30 | no contract of its own: an entry is expired when it is older than the TTL or carries another version. Its properties are stated by `ExpiryIsPermanent`, `Lookup` and `ReadAfterWrite` |
| Cache.ExpiryIsPermanent | src/lib/cache/index.ts:26-30 | an entry expired at one time is expired at every later time |
| Cache.Lookup | src/lib/cache/index.ts:33-54 | a read hits exactly when the key is present and its entry is not expired, and a hit returns that entry's stored data |
| Cache.ReadAfterWrite | src/lib/cache/index.ts:57-71 | a value written at time w is read back unchanged while now − w ≤ the TTL, and missed afterwards |
| Cache.KeysOfTypeUpdate | src/lib/cache/index.ts:71 | writing a key adds it to its own category's keys and leaves the other category's keys alone |
| Cache.WriteKeepsLimit | src/lib/cache/index.ts:57-95 | evict-then-write never takes a category within 100 entries over 100, and leaves the other category's keys and entries untouched |
| Cache.EvictionStaysInType | src/lib/cache/index.ts:82-95 | eviction leaves a category that was within 100 entries below 100, and removes no key outside that category |
| Cache.LocalCache.GetCacheEntries | src/lib/cache/index.ts:98-120 | outside a browser the list is empty; otherwise it lists every key of the category once, and only those, with its entry's timestamp |
| Cache.LocalCache.Oldest | src/lib/cache/index.ts:85-93 | an empty listing has no oldest; otherwise the chosen entry is a minimum by timestamp and the first such, as a stable sort would put first |
| Cache.LocalCache.EvictIfNeeded | src/lib/cache/index.ts:82-95 | a category with 100 or more entries loses exactly one of its oldest entries; otherwise, or outside a browser, nothing changes |
| Cache.LocalCache.SetCache | src/lib/cache/index.ts:57-79 | after eviction the key holds the value stamped with `now` and version 1. A category within the limit stays within it, the other category's keys are unchanged, and outside a browser nothing changes |
| Cache.LocalCache.GetCache | src/lib/cache/index.ts:33-54 | returns `Lookup`'s answer, removes the key exactly when its entry is expired, and outside a browser returns null and changes nothing |
| Cache.LocalCache.ClearOldEntries | src/lib/cache/index.ts:123-132 | removes exactly the category's entries older than the TTL |
| Cache.LocalCache.KeysWithPrefix | src/lib/cache/index.ts:139-148 | collects exactly the store's keys that start with the prefix |
| Cache.LocalCache.RemoveKeys | src/lib/cache/index.ts:150 | removes exactly the given keys |
| Cache.LocalCache.ClearCache | src/lib/cache/index.ts:135-159 | with a category, removes exactly its keys; without one, removes the keys of both categories and keeps all other keys; outside a browser, nothing changes |
| Cache.LocalCache.GetCacheStats | src/lib/cache/index.ts:162-171 | counts the entries of each category, and the total is the size of their union, which equals the sum because no key is in both |

`GenreHunt.DecideKeepsChainValid` states that an accepted candidate keeps a
well-formed session well-formed, provided its staff ids are distinct. Combined
with `TryAddRound`'s contract, this means every accepted round keeps the
following true:

* rounds are numbered 1, 2, … with no gaps;
* no anime is played twice;
* round 1 credits nobody;
* every later round is linked to the one before by staff of both anime;
* each round's snapshot holds the running counts after it;
* the usage map counts exactly the credits of all rounds;
* every count is between 1 and 3.


## Left out

- The HTTP requests, `response.ok` checks and thrown "not found" errors of
  `anime.ts` and `utils/mal.ts`. The parsed payloads are the inputs; the model
  covers what the code does with them.
- `fetchRandomTopAnime` in `anime.ts`: a random pick from a fetched page. Its
  record-building is the same as `AnimeWithCast`.
- `JSON.parse`, the `try`/`catch` blocks with their `console.error` logging,
  and the `QuotaExceededError` retry in `setCache`. A stored entry is modelled
  as already parsed, and `localStorage` never throws.
- The `if (!raw)` / `if (raw)` guards in the cache: a stored value is never
  the empty string here.
- Cache.LocalCache.GetCacheEntries: the order of its listing is left
  unspecified, because the browser's `localStorage.key(i)` order is
  unspecified.
- Cache.LocalCache.EvictIfNeeded: when several entries share the oldest
  timestamp, the model says one of them goes, not which.
- Cache.LocalCache.Oldest stands in for the sort by timestamp. Only the first
  element of the sorted array is used, and that is the first minimum.
- Cache.LocalCache.ClearOldEntries reads the clock once (`now`). The code calls
  `Date.now()` once per entry.
- `isBrowser()` is a constant flag of the cache object rather than a call.
- AnimeApi.SearchEntry and AnimeApi.AnimeWithCast keep `type` and `season`.
  They fold the payload's `null` and missing `year` into one "absent", where
  `api/anime.ts` copies `year: anime.year` as is (lines 85 and 120) and so
  keeps a `null`. They also drop the raw `titles` pass-through (lines 82 and
  117), which the game's `Anime` type does not declare. The same holds for
  the record `fetchRandomTopAnime` builds (lines 157 and 160).
- MalUtils.FetchAnimeRecord fills the model's one `staff` field. In the
  source, `utils/mal.ts` (line 115) stores the cast under `voiceActors`,
  while `tryAddRound` reads only `staff` (`genreHunt.ts`, line 75). So an
  anime built by that fetcher is refused there as having no staff
  information, but it can be linked in the model.
- The error message texts of `tryAddRound`. A refusal is a tagged reason;
  the overused one carries the list of voice actors it names.
- GenreHunt.DecideKeepsChainValid assumes the candidate's staff ids are
  distinct. Both fetchers guarantee this (`ExtractedCastIsFiltered`). A list
  with a repeated id could push a count past 3.
- `createRound` is the `Round` constructor itself.
- GenreHunt.GameDetails.TryAddRound: its own contract does not say that a
  well-formed session stays well-formed, and the class has no `Valid()`
  predicate. That guarantee is `DecideKeepsChainValid` applied to the
  verdict the contract names. Stating it on the method itself makes its
  proof many times more expensive for the verifier.
- The game-mode registry (`modeRegistry.ts`), `src/lib/api/mal.ts` and the
  route handlers under `src/routes/` are not part of this model.
- JavaScript numbers are modelled as unbounded integers: ids, timestamps and
  ages. Floating-point ids and timestamps are not modelled.

## Findings

| source | as written | input that shows it | evidently intended | confidence | as-written member | corrected member |
|---|---|---|---|---|---|---|
| src/lib/modes/genreHunt.ts:124 | `isGameOver` is `rounds.length === 10`, and `tryAddRound` has no game-over check | a well-formed ten-round chain in which anime k casts voice actors k and k+1, then an eleventh anime sharing voice actor 10: it is accepted and `isGameOver` goes from true back to false | the game stays over once ten rounds are played (`rounds.length >= 10`) | medium: harmless if every caller stops submitting after game over; not executed | GenreHunt.GameOverLapsesAsWritten | GenreHunt.GameOverStaysOver |
