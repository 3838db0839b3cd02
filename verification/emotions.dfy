/**
 * The four moods the player knows, their names as they appear in the page
 * (`data-emotion` attributes, score keys) and the playlist each one plays.
 */
module Emotions {
  import opened Wrappers
  import JsBuiltins

  datatype Emotion = Happy | Neutral | Sad | Angry

  /** The key order of the camera's score object: happy, neutral, sad, angry.
      `Rank(e)` is the position of `e` in that order. */
  const KeyOrder: seq<Emotion> := [Happy, Neutral, Sad, Angry]

  function Rank(e: Emotion): (r: nat)
    ensures r < |KeyOrder| && KeyOrder[r] == e
  {
    match e
    case Happy => 0
    case Neutral => 1
    case Sad => 2
    case Angry => 3
  }

  /** The lower-case key naming an emotion. */
  function Name(e: Emotion): string {
    match e
    case Happy => "happy"
    case Neutral => "neutral"
    case Sad => "sad"
    case Angry => "angry"
  }

  /** The `PLAYLISTS` table: the context URI played for each emotion. */
  function Playlist(e: Emotion): string {
    match e
    case Happy => "spotify:playlist:0s4GDB01raiqiNVstNfUXe"
    case Sad => "spotify:playlist:45rWp1I6aL5ruR3WNG5K2H"
    case Neutral => "spotify:playlist:07LPGPmhNOGYiWIaFhY61V"
    case Angry => "spotify:playlist:55DSMbgOO36tDodpwCykG4"
  }

  /** The truthiness test `PLAYLISTS[name]`: which emotion, if any, a name
      given by a button or by the camera denotes. */
  function Lookup(name: string): (r: Option<Emotion>)
    ensures r.Some? ==> Name(r.value) == name
    ensures forall e :: Name(e) == name ==> r == Some(e)
  {
    if name == "happy" then Some(Happy)
    else if name == "neutral" then Some(Neutral)
    else if name == "sad" then Some(Sad)
    else if name == "angry" then Some(Angry)
    else None
  }

  /** Every playlist URI is a `spotify:playlist` context, and no two
      emotions share one, so the current URI determines the current mood. */
  lemma PlaylistsAreDistinctContexts(e: Emotion, f: Emotion)
    ensures JsBuiltins.StartsWith(Playlist(e), "spotify:playlist")
    ensures Playlist(e) == Playlist(f) ==> e == f
  {
  }

  /** A value for each of the four emotions, like the `{ happy, neutral,
      sad, angry }` objects of the camera code. */
  datatype PerEmotion<T> = PerEmotion(happy: T, neutral: T, sad: T, angry: T) {

    function Get(e: Emotion): T {
      match e
      case Happy => happy
      case Neutral => neutral
      case Sad => sad
      case Angry => angry
    }
  }
}
