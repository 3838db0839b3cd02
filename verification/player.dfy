/**
 * The playlist-selection state machine of the player page: a button press
 * schedules an emotion, and at each evaluation point (a track about to end,
 * or the "next" button) the scheduled emotion or else the camera's dominant
 * emotion may switch the playing context to that emotion's playlist.
 */
module Player {
  import opened Wrappers
  import opened Emotions
  import JsBuiltins
  import Camera

  /** The page's mutable globals that the selection logic reads and writes,
      together with the camera's score buffer. */
  datatype AppState = AppState(
    current: Emotion,                // currentEmotion
    contextUri: string,              // currentContextUri
    pending: Option<Emotion>,        // pendingEmotion
    scores: Camera.Scores,           // the camera script's emotionScores
    lastTrackId: Option<string>,     // lastTrackId
    preEndHandled: Option<string>)   // preEndHandledTrackId

  /** The state at page load: the happy playlist, nothing scheduled. */
  const Initial: AppState :=
    AppState(Happy, Playlist(Happy), None, Camera.Zero, None, None)

  /** The relation the globals keep: the context URI is the current
      emotion's playlist, and the scores are non-negative. */
  ghost predicate Valid(s: AppState) {
    && s.contextUri == Playlist(s.current)
    && Camera.NonNegative(s.scores)
  }

  lemma InitialIsValid()
    ensures Valid(Initial)
  {
  }

  /** The JSON body of a play request: a playlist goes in `context_uri`,
      anything else as a one-element `uris` list. */
  datatype PlayBody = ContextBody(contextUri: string) | UrisBody(uris: seq<string>)

  function BodyFor(uri: string): (r: PlayBody)
    ensures r.ContextBody? <==> JsBuiltins.StartsWith(uri, "spotify:playlist")
    ensures r.ContextBody? ==> r.contextUri == uri
    ensures r.UrisBody? ==> r.uris == [uri]
  {
    if JsBuiltins.StartsWith(uri, "spotify:playlist") then ContextBody(uri) else UrisBody([uri])
  }

  /** The URI a play request names. */
  function BodyUri(b: PlayBody): string {
    match b
    case ContextBody(uri) => uri
    case UrisBody(uris) => if |uris| == 1 then uris[0] else ""
  }

  /** The request plays exactly the URI it was built from, whichever form
      it takes. */
  lemma BodyForNamesUri(uri: string)
    ensures BodyUri(BodyFor(uri)) == uri
    ensures BodyFor(uri).UrisBody? ==> |BodyFor(uri).uris| == 1
  {
  }

  /** Every emotion's playlist is sent as a playback context. */
  lemma PlaylistBodyIsContext(e: Emotion)
    ensures BodyFor(Playlist(e)) == ContextBody(Playlist(e))
  {
    PlaylistsAreDistinctContexts(e, e);
  }

  /** `startPlayback`: the play request for the current context, sent only
      once the player has a device id. */
  function StartPlayback(s: AppState, hasDevice: bool): (r: Option<PlayBody>)
    ensures r.Some? <==> hasDevice
    ensures Valid(s) && hasDevice ==> r == Some(ContextBody(Playlist(s.current)))
  {
    PlaylistBodyIsContext(s.current);
    if hasDevice then Some(BodyFor(s.contextUri)) else None
  }

  /** `scheduleEmotionChange`: a known emotion name becomes the pending
      emotion; an unknown one changes nothing. */
  function Schedule(s: AppState, name: string): (r: AppState)
    ensures Lookup(name).None? ==> r == s
    ensures forall e :: Name(e) == name ==> r == s.(pending := Some(e))
  {
    match Lookup(name)
    case None => s
    case Some(e) => s.(pending := Some(e))
  }

  /** The choice at an evaluation point: a pending button emotion wins over
      the camera's dominant emotion. */
  function Choose(pending: Option<Emotion>, camera: Option<Emotion>): (r: Option<Emotion>)
    ensures pending.Some? ==> r == pending
    ensures pending.None? ==> r == camera
  {
    if pending.Some? && Lookup(Name(pending.value)).Some? then pending
    else if camera.Some? && Lookup(Name(camera.value)).Some? then camera
    else None
  }

  /** What `applyEmotionNow` leaves behind: the new state and the play
      request it sends (none without a device and an access token). */
  datatype Applied = Applied(next: AppState, request: Option<PlayBody>)

  /** `applyEmotionNow`: switch to a known emotion's playlist. */
  function Apply(s: AppState, name: string, connected: bool): (r: Applied)
    ensures Lookup(name).None? ==> r == Applied(s, None)
    ensures forall e :: Name(e) == name ==>
      && r.next == s.(current := e, contextUri := Playlist(e))
      && r.request == (if connected then Some(ContextBody(Playlist(e))) else None)
  {
    match Lookup(name)
    case None => Applied(s, None)
    case Some(e) =>
      var s' := s.(current := e, contextUri := Playlist(e));
      PlaylistBodyIsContext(e);
      Applied(s', if connected then Some(BodyFor(s'.contextUri)) else None)
  }

  /** What `evaluateAndMaybeSwitchEmotion` leaves behind: the new state,
      the emotion it chose, its return value and the play request sent. */
  datatype Evaluation = Evaluation(next: AppState, chosen: Option<Emotion>, changed: bool, request: Option<PlayBody>)

  /** `evaluateAndMaybeSwitchEmotion`: choose, consume the button, reset
      the camera buffer, and switch only to a different emotion. */
  function Evaluate(s: AppState, connected: bool): (r: Evaluation)
    ensures r.chosen == Choose(s.pending, Camera.Dominant(s.scores))
    ensures r.next.pending.None?
    ensures forall e :: r.next.scores.Get(e) == 0.0
    ensures r.next.lastTrackId == s.lastTrackId && r.next.preEndHandled == s.preEndHandled
    ensures r.changed <==> r.chosen.Some? && r.chosen.value != s.current
    ensures !r.changed ==> r.next.current == s.current && r.next.contextUri == s.contextUri && r.request.None?
    ensures r.changed ==> r.next.current == r.chosen.value && r.next.contextUri == Playlist(r.next.current)
    ensures r.changed ==> r.request == (if connected then Some(ContextBody(Playlist(r.chosen.value))) else None)
  {
    var chosen := Choose(s.pending, Camera.Dominant(s.scores));
    var s1 := s.(pending := None, scores := Camera.Reset(s.scores));
    if chosen.None? || chosen.value == s.current then Evaluation(s1, chosen, false, None)
    else
      var a := Apply(s1, Name(chosen.value), connected);
      Evaluation(a.next, chosen, true, a.request)
  }

  /** A button press survives until the next evaluation and then decides it,
      whatever the camera has seen. */
  lemma ButtonOverridesCamera(s: AppState, e: Emotion, connected: bool)
    ensures Evaluate(Schedule(s, Name(e)), connected).chosen == Some(e)
    ensures e != s.current ==> Evaluate(Schedule(s, Name(e)), connected).next.current == e
  {
  }

  /** One playback-state sample as the polling callback sees it. Missing
      numeric fields are 0: the source's `||` fallbacks treat 0, null,
      undefined and NaN alike. */
  datatype TrackSample = TrackSample(id: Option<string>, position: int, stateDuration: int, trackDuration: int)

  /** `state.duration || track.duration_ms || 0`: the state's duration
      when it has one, else the track's. */
  function Duration(t: TrackSample): (r: int)
    ensures t.stateDuration != 0 ==> r == t.stateDuration
    ensures t.stateDuration == 0 ==> r == t.trackDuration
    ensures r == 0 <==> t.stateDuration == 0 && t.trackDuration == 0
  {
    if t.stateDuration != 0 then t.stateDuration else t.trackDuration
  }

  /** A sample that identifies a track with a known duration. */
  predicate Usable(t: TrackSample) {
    t.id.Some? && t.id.value != "" && Duration(t) != 0
  }

  /** Less than 1.5 seconds of the track remain. */
  predicate NearEnd(t: TrackSample) {
    0 <= Duration(t) - t.position <= 1500
  }

  /** The pre-end bookkeeping of one sample: the new state and whether the
      callback goes on to evaluate. */
  function PreEnd(s: AppState, t: TrackSample): (r: (AppState, bool))
    ensures !Usable(t) ==> r == (s, false)
    ensures Usable(t) ==> r.0.lastTrackId == t.id
    ensures r.1 <==> Usable(t) && NearEnd(t) && (t.id == s.lastTrackId ==> s.preEndHandled != t.id)
    ensures r.1 ==> r.0.preEndHandled == t.id
    ensures Usable(t) && !r.1 && t.id != s.lastTrackId ==> r.0.preEndHandled.None?
    ensures Usable(t) && !r.1 && t.id == s.lastTrackId ==> r.0.preEndHandled == s.preEndHandled
    ensures r.0 == s.(lastTrackId := r.0.lastTrackId, preEndHandled := r.0.preEndHandled)
  {
    if !Usable(t) then (s, false)
    else
      var s1 := if t.id != s.lastTrackId then s.(lastTrackId := t.id, preEndHandled := None) else s;
      if NearEnd(t) && s1.preEndHandled != t.id then (s1.(preEndHandled := t.id), true)
      else (s1, false)
  }

  /** What one tick of the 500 ms polling interval leaves behind. */
  datatype Tick = Tick(next: AppState, evaluated: bool, request: Option<PlayBody>)

  /** The polling callback: nothing while the user drags the timeline or
      when no track is reported; otherwise pre-end bookkeeping, and an
      evaluation when the track is about to end. */
  function Poll(s: AppState, seeking: bool, sample: Option<TrackSample>, connected: bool): (r: Tick)
    ensures seeking || sample.None? ==> r == Tick(s, false, None)
    ensures r.evaluated ==> !seeking && sample.Some? && Usable(sample.value) && NearEnd(sample.value)
    ensures !seeking && sample.Some? ==> (r.evaluated <==> PreEnd(s, sample.value).1)
    ensures r.evaluated ==> r.next == Evaluate(PreEnd(s, sample.value).0, connected).next
    ensures r.evaluated ==> r.request == Evaluate(PreEnd(s, sample.value).0, connected).request
    ensures !seeking && sample.Some? && !r.evaluated ==> r.next == PreEnd(s, sample.value).0
    ensures !r.evaluated ==> r.request.None?
    ensures !r.evaluated ==> r.next == s.(lastTrackId := r.next.lastTrackId, preEndHandled := r.next.preEndHandled)
  {
    if seeking || sample.None? then Tick(s, false, None)
    else
      var (s1, fire) := PreEnd(s, sample.value);
      if fire then
        var ev := Evaluate(s1, connected);
        Tick(ev.next, true, ev.request)
      else Tick(s1, false, None)
  }

  /** What a click on "next" leaves behind: the new state, whether the
      player skips to the next track, and the play request sent. */
  datatype NextClick = NextClick(next: AppState, skipped: bool, request: Option<PlayBody>)

  /** The "next" button (`hasPlayer`: the SDK player object exists):
      evaluate, and skip within the current playlist
      only when the evaluation did not switch playlists. */
  function Next(s: AppState, hasPlayer: bool, connected: bool): (r: NextClick)
    ensures !hasPlayer ==> r == NextClick(s, false, None)
    ensures hasPlayer ==> (r.skipped <==> !Evaluate(s, connected).changed)
    ensures hasPlayer ==> r.next == Evaluate(s, connected).next
    ensures hasPlayer ==> r.request == Evaluate(s, connected).request
  {
    if !hasPlayer then NextClick(s, false, None)
    else
      var ev := Evaluate(s, connected);
      NextClick(ev.next, !ev.changed, ev.request)
  }

  /** The inputs the page reacts to. */
  datatype Event =
    | Button(name: string)
    | CameraTick(detection: Option<Camera.Frame>)
    | PollTick(seeking: bool, sample: Option<TrackSample>, connected: bool)
    | NextButton(hasPlayer: bool, connected: bool)

  ghost predicate Plausible(ev: Event) {
    ev.CameraTick? && ev.detection.Some? ==> Camera.FrameNonNegative(ev.detection.value)
  }

  /** The page's reaction to one event. Only the evaluation points (the
      polling interval and the "next" button) switch playlists: a button
      only schedules, a camera tick only adds to the scores. */
  function Step(s: AppState, ev: Event): (r: AppState)
    ensures r.current != s.current || r.contextUri != s.contextUri ==> ev.PollTick? || ev.NextButton?
    ensures !ev.PollTick? ==> r.lastTrackId == s.lastTrackId && r.preEndHandled == s.preEndHandled
    ensures ev.Button? ==> r.scores == s.scores
    ensures ev.CameraTick? ==> r.pending == s.pending
  {
    match ev
    case Button(name) => Schedule(s, name)
    case CameraTick(d) => s.(scores := Camera.Observe(s.scores, d))
    case PollTick(seeking, sample, connected) => Poll(s, seeking, sample, connected).next
    case NextButton(hasPlayer, connected) => Next(s, hasPlayer, connected).next
  }

  lemma StepPreservesValid(s: AppState, ev: Event)
    requires Valid(s) && Plausible(ev)
    ensures Valid(Step(s, ev))
  {
    if ev.CameraTick? {
      Camera.ObservePreservesNonNegative(s.scores, ev.detection);
    }
  }

  function Run(s: AppState, evs: seq<Event>): AppState
    decreases |evs|
  {
    if |evs| == 0 then s else Run(Step(s, evs[0]), evs[1..])
  }

  /** Whatever happens, the context URI stays the current emotion's
      playlist and the scores stay non-negative. */
  lemma {:induction false} RunPreservesValid(s: AppState, evs: seq<Event>)
    requires Valid(s)
    requires forall i :: 0 <= i < |evs| ==> Plausible(evs[i])
    ensures Valid(Run(s, evs))
    decreases |evs|
  {
    if |evs| > 0 {
      StepPreservesValid(s, evs[0]);
      RunPreservesValid(Step(s, evs[0]), evs[1..]);
    }
  }

  /** The number of evaluations a run of polling ticks triggers. */
  function Evaluations(s: AppState, ticks: seq<(bool, Option<TrackSample>)>, connected: bool): nat
    decreases |ticks|
  {
    if |ticks| == 0 then 0
    else
      var t := Poll(s, ticks[0].0, ticks[0].1, connected);
      (if t.evaluated then 1 else 0) + Evaluations(t.next, ticks[1..], connected)
  }

  /** Every tick of the run that reports a track id at all reports `id`. */
  ghost predicate SameTrack(ticks: seq<(bool, Option<TrackSample>)>, id: string) {
    forall i :: 0 <= i < |ticks| && ticks[i].1.Some? && ticks[i].1.value.id.Some? && ticks[i].1.value.id.value != "" ==>
      ticks[i].1.value.id == Some(id)
  }

  lemma {:induction false} HandledTrackNeverFiresAgain(s: AppState, ticks: seq<(bool, Option<TrackSample>)>, id: string, connected: bool)
    requires SameTrack(ticks, id)
    requires s.lastTrackId == Some(id) && s.preEndHandled == Some(id)
    ensures Evaluations(s, ticks, connected) == 0
    decreases |ticks|
  {
    if |ticks| > 0 {
      var t := Poll(s, ticks[0].0, ticks[0].1, connected);
      assert SameTrack(ticks[1..], id) by {
        forall i | 0 <= i < |ticks[1..]| && ticks[1..][i].1.Some? && ticks[1..][i].1.value.id.Some? && ticks[1..][i].1.value.id.value != ""
          ensures ticks[1..][i].1.value.id == Some(id)
        {
          assert ticks[1..][i] == ticks[i + 1];
        }
      }
      HandledTrackNeverFiresAgain(t.next, ticks[1..], id, connected);
    }
  }

  /** However often the interval samples one track, the pre-end evaluation
      runs for it at most once. */
  lemma {:induction false} PreEndAtMostOncePerTrack(s: AppState, ticks: seq<(bool, Option<TrackSample>)>, id: string, connected: bool)
    requires SameTrack(ticks, id)
    ensures Evaluations(s, ticks, connected) <= 1
    decreases |ticks|
  {
    if |ticks| > 0 {
      var t := Poll(s, ticks[0].0, ticks[0].1, connected);
      assert SameTrack(ticks[1..], id) by {
        forall i | 0 <= i < |ticks[1..]| && ticks[1..][i].1.Some? && ticks[1..][i].1.value.id.Some? && ticks[1..][i].1.value.id.value != ""
          ensures ticks[1..][i].1.value.id == Some(id)
        {
          assert ticks[1..][i] == ticks[i + 1];
        }
      }
      if t.evaluated {
        HandledTrackNeverFiresAgain(t.next, ticks[1..], id, connected);
      } else {
        PreEndAtMostOncePerTrack(t.next, ticks[1..], id, connected);
      }
    }
  }
}
