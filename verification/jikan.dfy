/**
 * The shapes of the catalog's JSON payloads that the normalisation helpers
 * read, with every field the code treats as optional made an `Option`, and the
 * helpers shared verbatim by src/lib/api/anime.ts and src/lib/utils/mal.ts.
 */
module Jikan {
  import opened Wrappers
  import opened Js

  /** `{ large_image_url, image_url }` */
  datatype ImageSet = ImageSet(largeImageUrl: Option<string>, imageUrl: Option<string>)

  /** `{ jpg, webp }` */
  datatype Images = Images(jpg: Option<ImageSet>, webp: Option<ImageSet>)

  /** A person's `name` field: missing, a bare string, or an object with a `name`. */
  datatype PersonName = NameAbsent | NameText(text: string) | NameObject(name: Option<string>)

  /** `{ mal_id, name, images }` of a person. */
  datatype Person = Person(malId: int, name: PersonName, images: Option<Images>)

  /** `{ name }` of a character. */
  datatype Character = Character(name: Option<string>)

  /** One entry of a character's `voice_actors`. */
  datatype VoiceActor = VoiceActor(language: Option<string>, person: Option<Person>)

  /** One entry of an anime's `characters` list. */
  datatype CharacterCredit = CharacterCredit(
    role: Option<string>,
    character: Option<Character>,
    voiceActors: Option<seq<VoiceActor>>)

  /** One entry of a `titles` array: `{ type, title }`. */
  datatype TitleEntry = TitleEntry(kind: Option<string>, title: Option<string>)

  /** An anime's `titles` field in the forms the title helper accepts. */
  datatype Titles =
    | TitlesAbsent
    | TitlesText(text: string)
    | TitlesList(entries: seq<TitleEntry>)
    | TitlesObject(english: Option<string>, defaultTitle: Option<string>)

  /** An anime as the catalog returns it from a search or a lookup. */
  datatype AnimeData = AnimeData(
    malId: int,
    title: string,
    titles: Titles,
    images: Option<Images>,
    kind: Option<string>,
    year: Nullable<int>,
    season: Option<string>,
    status: Option<string>)

  /** The anime nested in one of a person's voice roles. */
  datatype RoleAnime = RoleAnime(malId: int, titles: Titles, images: Option<Images>)

  /** One entry of a person's `voices` list. */
  datatype VoiceRole = VoiceRole(role: Option<string>, anime: Option<RoleAnime>, character: Option<Character>)

  /** `images?.jpg?.large_image_url` and its three fallbacks, most preferred first. */
  function ImageCandidates(images: Images): seq<Option<string>> {
    var jpg := images.jpg.GetOr(ImageSet(None, None));
    var webp := images.webp.GetOr(ImageSet(None, None));
    [jpg.largeImageUrl, jpg.imageUrl, webp.largeImageUrl, webp.imageUrl]
  }

  /** A four-way preference list is `a || b || c || d || ''`. */
  lemma FirstTruthyOfFour(a: Option<string>, b: Option<string>, c: Option<string>, d: Option<string>)
    ensures FirstTruthy([a, b, c, d]) == OrElse(a, OrElse(b, OrElse(c, OrElse(d, ""))))
  {
    assert [d][1..] == [];
    assert FirstTruthy([d]) == OrElse(d, "");
    assert [c, d][1..] == [d];
    assert FirstTruthy([c, d]) == OrElse(c, FirstTruthy([d]));
    assert [b, c, d][1..] == [c, d];
    assert FirstTruthy([b, c, d]) == OrElse(b, FirstTruthy([c, d]));
    assert [a, b, c, d][1..] == [b, c, d];
  }

  /**
   * `getImageUrl(images)`: the large jpg, else the jpg, else the large webp,
   * else the webp url; `''` when `images` is missing or none of them is set.
   */
  function GetImageUrl(images: Option<Images>): (url: string)
    ensures images.None? ==> url == ""
    ensures images.Some? ==> url == FirstTruthy(ImageCandidates(images.value))
  {
    if images.None? then ""
    else
      var cs := ImageCandidates(images.value);
      FirstTruthyOfFour(cs[0], cs[1], cs[2], cs[3]);
      var jpg := images.value.jpg;
      var webp := images.value.webp;
      if jpg.Some? && Truthy(jpg.value.largeImageUrl) then jpg.value.largeImageUrl.value
      else if jpg.Some? && Truthy(jpg.value.imageUrl) then jpg.value.imageUrl.value
      else if webp.Some? && Truthy(webp.value.largeImageUrl) then webp.value.largeImageUrl.value
      else if webp.Some? && Truthy(webp.value.imageUrl) then webp.value.imageUrl.value
      else ""
  }

  /** `getPersonName(name)`: the string itself, or the object's `name`, or `''`. */
  function GetPersonName(name: PersonName): (r: string)
    ensures name.NameAbsent? ==> r == ""
    ensures name.NameText? ==> r == name.text
    ensures name.NameObject? ==> r == OrElse(name.name, "")
  {
    match name
    case NameAbsent => ""
    case NameText(s) => if s == "" then "" else s
    case NameObject(n) => if Truthy(n) then n.value else ""
  }
}
