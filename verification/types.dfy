/**
 * The game's records, as src/lib/types/game.ts declares them and
 * src/lib/modes/genreHunt.ts uses them.
 *
 * genreHunt.ts calls a cast member `Staff` and reads `anime.staff`; game.ts
 * calls the same record `Seiyuu` and the field `voiceActors`. The model has
 * one record, `Seiyuu`, and one field, `staff`, for both.
 */
module Types {
  import opened Wrappers
  import opened Seqs

  /** The two character roles the game keeps (`'Main' | 'Supporting'`). */
  datatype Role = Main | Supporting

  /** An anime. `staff` is absent unless the anime was fetched with its characters. */
  datatype Anime = Anime(
    id: int,
    title: string,
    coverImage: string,
    kind: Option<string>,       // the `type` field
    year: Option<int>,
    season: Option<string>,
    staff: Option<seq<Seiyuu>>)

  /**
   * A voice actor. `characterName`/`characterRole` describe the character voiced
   * in the anime this record was reached from; `animeRoles` is filled only when
   * the person was fetched with their roles.
   */
  datatype Seiyuu = Seiyuu(
    id: int,
    name: string,
    image: string,
    characterName: Option<string>,
    characterRole: Option<Role>,
    animeRoles: Option<seq<AnimeRole>>)

  /** One anime a voice actor appears in, with the character voiced there. */
  datatype AnimeRole = AnimeRole(anime: Anime, characterName: string, characterRole: Role)

  /** Staff identity: the catalog id, never the display name. */
  function SeiyuuId(s: Seiyuu): int { s.id }

  /** The set of staff ids of a cast list: `new Set(staff.map(s => s.id))`. */
  function StaffIds(staff: seq<Seiyuu>): set<int> {
    KeysOf(staff, SeiyuuId)
  }
}
