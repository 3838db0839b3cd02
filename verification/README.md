# Emotion-driven Spotify player: a Dafny model of its selection core

The web player picks one of four Spotify playlists (happy, neutral, sad,
angry). The user's buttons and a face-expression camera both feed that
choice. This project models the decision logic of the player page
(`app.js`), the score buffer of the camera script (`camera.js`), and the
PKCE helpers of the login page (`auth.js`). It then proves what that logic
promises.

The model is split into these modules:

- `Wrappers`: `Option`, which stands for JavaScript's `null`.
- `JsBuiltins`: the few JavaScript built-ins the core relies on:
  - `Math.round`;
  - `Number.prototype.toString(radix)` for non-negative integers;
  - `padStart`;
  - `startsWith`;
  - a global `replace` of one character;
  - the `/=+$/` strip.
- `Emotions`: the four emotions, their key order, their names, and the
  `PLAYLISTS` table.
- `Camera`:
  - the `emotionScores` buffer with its `MULT` weights;
  - `resetEmotionScores`;
  - `getDominantEmotion`;
  - `getEmotionStats`.
- `Player`: the page's globals as one `AppState` value. The operations
  that change it are:
  - scheduling a button emotion;
  - `evaluateAndMaybeSwitchEmotion`;
  - `applyEmotionNow`;
  - `startPlayback`'s request body;
  - the pre-end detection of the 500 ms polling interval;
  - the "next" button.

  An event-driven `Run` combines all of them.
- `TimeFormat`: `msToTime`.
- `Base64Url`: `btoa` over bytes, and `base64url` as the unpadded URL-safe
  encoding of section 5 of RFC 4648.
- `Pkce`: `randomString` (hex encoding of random octets) and the S256 code
  challenge of RFC 7636.

How JavaScript values are represented:

- **Numbers** are reals. A value that may be `NaN` or infinite is a
  `Number` (`Finite(real) | NonFinite`).
- **Camera scores and percentages** are unbounded reals and integers.
- **Sample fields** (position and the two durations) are integers. Because
  of the source's `||` fallbacks, 0 stands for every falsy value.
- **Strings** are `seq<char>`.
- **Bytes** are integers in `0..255`.

Every side effect is either turned into a value or left out:

- The HTTP play request is returned as a `PlayBody`, not sent.
- Random octets and the SHA-256 digest are parameters.
- Whether the page has both a device id and an access token is the boolean
  input `connected` (`applyEmotionNow` tests both). Whether it has a device
  id is the boolean input `hasDevice` (`startPlayback` tests only
  `deviceId`).
- Whether the SDK `player` object exists is a boolean input, `hasPlayer`.

## Model

| member | source | states |
|---|---|---|
| Emotions.Rank | camera.js:12 | the key order happy, neutral, sad, angry: the emotion sits at its rank in that order |
| Emotions.Lookup | app.js:9-14 | `PLAYLISTS[name]` is truthy exactly for the four emotion names, and the lookup returns the emotion with that name |
| Emotions.PlaylistsAreDistinctContexts | app.js:9-14 | the four playlist URIs are pairwise different and all start with `spotify:playlist` |
| Camera.Reset | camera.js:99-101 | after a reset every score is 0 |
| Camera.AddFrame | camera.js:219-237 | each score grows by the reported value (a missing key counts as 0) times its weight 1, 1, 5 or 2; a non-finite value leaves its score unchanged |
| Camera.Observe | camera.js:206-217 | a failed detection or a frame without a face leaves the scores unchanged |
| Camera.ObservePreservesNonNegative | camera.js:219-237 | non-negative expression probabilities keep the scores non-negative |
| Camera.AccumulateIsWeightedSum | camera.js:232-237 | after any run of frames, each score is its start value plus its weight times the sum of its readings |
| Camera.TopFrom | camera.js:108 | the head of the descending stable sort is a maximal score, and the earliest key among the maximal ones |
| Camera.Dominant | camera.js:107-112 | null exactly when no score is positive; otherwise the emotion has a positive, maximal score and is the first such key in key order |
| Camera.DominantNoneIffAllZero | camera.js:99-112 | with non-negative scores the camera has no opinion exactly when every score is 0 |
| Camera.Total | camera.js:115 | with non-negative scores the total is 0 exactly when every score is, and it is at least each score |
| Camera.Stats | camera.js:114-120 | null exactly when the total is 0; otherwise each entry is its score's share of the total, rounded half up, in percent |
| Camera.StatsBounds | camera.js:114-120 | with non-negative scores each percentage is in 0..100, and the four add up to 99..102 |
| Camera.DominantHasLargestShare | camera.js:107-120 | the dominant emotion's percentage is at least every other percentage |
| Camera.AfterResetNothingToReport | camera.js:99-120 | right after a reset, neither a dominant emotion nor statistics are reported |
| Player.InitialIsValid | app.js:17-21 | at page load the context URI is the current emotion's playlist, and no score is negative |
| Player.BodyFor | app.js:574-576 | a `spotify:playlist` URI is sent as `context_uri`, any other URI as a one-element `uris` list |
| Player.BodyForNamesUri | app.js:574-576 | whichever form the body takes, it names exactly the URI it was built from |
| Player.PlaylistBodyIsContext | app.js:574-576 | every emotion's playlist goes out as a playback context |
| Player.StartPlayback | app.js:600-608 | a play request exists exactly when there is a device id, and it plays the current emotion's playlist |
| Player.Schedule | app.js:133-145 | an unknown name changes nothing; a known name becomes the pending emotion and nothing else changes |
| Player.Choose | app.js:185-200 | a pending button emotion wins; otherwise the camera's dominant emotion, if any, is chosen |
| Player.Apply | app.js:559-573 | an unknown name changes nothing and sends nothing; a known one becomes current along with its playlist, and a request for that playlist is sent only with a device and a token |
| Player.Evaluate | app.js:173-248 | the choice is button over camera; the button is consumed and the scores zeroed whatever the outcome; it reports a change exactly when an emotion was chosen that differs from the current one; without a change nothing moves and no request is sent; with a change the new playlist is requested exactly when a device and a token are present |
| Player.ButtonOverridesCamera | app.js:186-188 | scheduling at app.js:133-145 then the override here: a scheduled emotion decides the next evaluation whatever the camera saw, and switches to that emotion's playlist when it is not already current |
| Player.PreEnd | app.js:338-361 | unusable samples change nothing; a new track id clears the handled marker; the evaluation fires exactly when 0 to 1500 ms remain and this track has not been handled; firing marks the track handled; only the two track fields change |
| Player.Poll | app.js:329-368 | nothing happens while seeking or without a track; otherwise it evaluates exactly when the pre-end bookkeeping fires, on the state that bookkeeping left, sending the evaluation's request, and only near a usable track's end; without an evaluation no request is sent and the state is exactly what the bookkeeping left (a new track id recorded, its handled marker cleared) |
| Player.Duration | app.js:341 | the duration is the state's when it has one, else the track's, and it is 0 only when both are |
| Player.Next | app.js:513-533 | without a player nothing happens; otherwise the page evaluates, sending the evaluation's request, and it skips to the next track exactly when the evaluation did not switch playlists |
| Player.Step | app.js:133-152 | the page's reaction to one event: the button wiring here, the camera tick (camera.js:206-237), the polling callback (app.js:329-368) and the "next" handler (app.js:513-533); only the polling interval and the "next" button switch the playlist; only the polling callback touches the track fields; a button press leaves the scores alone, a camera tick the pending emotion |
| Player.StepPreservesValid | app.js:559-566 | each event keeps the context URI equal to the current emotion's playlist and the scores non-negative |
| Player.RunPreservesValid | app.js:17-21 | any run of events from a valid state keeps that relation |
| Player.HandledTrackNeverFiresAgain | app.js:345-361 | once a track is handled, further samples of the same track never trigger an evaluation |
| Player.PreEndAtMostOncePerTrack | app.js:345-361 | however often one track is sampled, its pre-end evaluation runs at most once, even with samples that carry no track id in between |
| JsBuiltins.Round | camera.js:118 | `Math.round`: the nearest integer, with halves rounded up |
| JsBuiltins.RoundMonotone | camera.js:118 | rounding preserves order |
| JsBuiltins.ToStringRadix | app.js:432 | `Number.prototype.toString(radix)` of a natural number is non-empty and has no leading zero |
| JsBuiltins.ParseToStringRadix | app.js:432 | the digits `toString(radix)` writes read back as the number |
| JsBuiltins.PaddedTwoDigits | auth.js:15 | for a number below radix², `toString(radix).padStart(2, "0")` is its two digits, high digit first |
| JsBuiltins.PadStart | app.js:432 | the result is at least the requested length, ends with the input, and is filled only with the fill character |
| JsBuiltins.ReplaceAll | auth.js:25-26 | each occurrence of the one character is replaced, and every other character is kept in place |
| JsBuiltins.StripTrailing | auth.js:27 | only a trailing run of the character is removed, and the result does not end with it |
| JsBuiltins.StripTrailingRun | auth.js:27 | stripping `=` from text followed by a run of `=` gives the text back when it does not end with `=` |
| TimeFormat.Clamp | app.js:428 | non-finite or negative input counts as 0, and other input is kept |
| TimeFormat.Label | app.js:432 | the template literal ends in `:` followed by two digits, the first of them 0 to 5 |
| TimeFormat.SecondsFieldIsPaddedToString | app.js:431-432 | the seconds field is `seconds.toString().padStart(2, "0")` |
| TimeFormat.MsToTime | app.js:427-433 | the label ends in `:` followed by two digits, the first of them 0 to 5 |
| TimeFormat.MinutesOfSeconds | app.js:429-430 | flooring to seconds and then to minutes gives the whole minutes of the input |
| TimeFormat.LabelReadsBack | app.js:432 | a label reads back as the minutes and seconds it was made from |
| TimeFormat.MsToTimeReadsBack | app.js:427-433 | the label shows exactly the whole minutes and the seconds within the minute of the clamped input |
| TimeFormat.InvalidShowsZero | app.js:428 | non-finite or negative input is shown as `0:00` |
| Base64Url.JoinSplit | auth.js:24 | three octets split into four sextets and join back to the same octets |
| Base64Url.SplitJoin | auth.js:24 | four sextets joined into three octets split back into the same four sextets |
| Base64Url.Sextets | auth.js:24 | n octets give ⌈4n/3⌉ sextets |
| Base64Url.OctetsOfSextets | auth.js:24 | decoding the sextets of a byte string gives the bytes back |
| Base64Url.SextetsOfOctets | auth.js:24 | sextets that decode come from the bytes they decode to |
| Base64Url.Standard | auth.js:24 | `btoa(String.fromCharCode(...))` writes only table 1 characters of RFC 4648, then a final run of at most two `=` (no `=` is followed by anything else) |
| Base64Url.StandardLength | auth.js:24 | `btoa` writes 4⌈n/3⌉ characters, padded with `=` to a multiple of 4 |
| Base64Url.Base64Url | auth.js:23-28 | the result has ⌈4n/3⌉ characters, all in the URL-safe alphabet, and no `=` |
| Base64Url.Base64UrlIsUnpaddedSection5 | auth.js:23-28 | `btoa`, then `+`→`-`, `/`→`_`, then stripping trailing `=` is exactly the unpadded URL-safe encoding |
| Base64Url.DecodeEncode | auth.js:23-28 | decoding the encoding gives the bytes back |
| Base64Url.EncodeDecode | auth.js:23-28 | text that decodes is the encoding of what it decodes to |
| Base64Url.Base64UrlInjective | auth.js:23-28 | different byte strings give different encodings |
| Pkce.HexPair | auth.js:15 | an octet is written as two lower-case hex digits |
| Pkce.HexPairIsPaddedToString | auth.js:15 | the two digits are what `x.toString(16).padStart(2, "0")` writes |
| Pkce.RandomString | auth.js:12-16 | the verifier has two characters per random octet |
| Pkce.RandomStringAt | auth.js:15 | octet i is written at positions 2i and 2i+1, high nibble first |
| Pkce.HexRoundTrip | auth.js:12-16 | the verifier's text determines the random octets it was made from |
| Pkce.RandomStringIsLowerHex | auth.js:12-16 | every character of the verifier is a lower-case hex digit |
| Pkce.DefaultVerifierIsValid | auth.js:12-16 | the default 64 octets give a 128-character verifier of unreserved characters, as section 4.1 of RFC 7636 requires |
| Pkce.VerifierLengthBounds | auth.js:12-16 | `randomString(len)` gives a valid RFC 7636 verifier exactly when len is 22 to 64 |
| Pkce.Challenge | auth.js:37-38 | the challenge has ⌈4n/3⌉ characters for an n-octet digest |
| Pkce.ChallengeOfDigest | auth.js:37-38 | a 32-octet SHA-256 digest gives 43 URL-safe characters and no padding |

## Left out

- Network calls (the `fetch` play request, the token exchange) are left out. The model returns the request body that would be sent. Response status handling is log-only.
- The Spotify Web Playback SDK is left out: `player.pause`, `player.nextTrack`, `getCurrentState`, the `ready` callback and volume. Their results become inputs: the playback sample, `hasPlayer` (the `player` object exists), `hasDevice` and `connected`.
- face-api, `getUserMedia`, model loading and `requestAnimationFrame` scheduling are left out. One tick of the loop is a `CameraTick` event carrying the first face's expressions, or `None`.
- The DOM, UI updates (bars, labels, status line, seek bar) and logging are left out: they decide nothing.
- The per-frame `best` emotion in camera.js (lines 227-229) is left out: it only feeds the status line.
- The `stats` computed at the start of an evaluation are left out: they are only logged.
- Randomness (`crypto.getRandomValues`) and `crypto.subtle.digest` are left out: the random octets and the digest are parameters. `sessionStorage`, redirects and the rest of the login flow are not part of this model.
- Concurrency is left out. The interval and click callbacks are `async` and could overlap at `await` points. The model applies each event atomically.
- Errors that propagate are left out: a rejected play `fetch` in `applyEmotionNow` (app.js:578) and a rejected `nextTrack()` (app.js:525). The next-button handler (app.js:530-532) or, for a pre-end evaluation, the polling callback (app.js:369-371) catches and logs them, after the state changes the model describes. The model follows the normal path. A rejected `pause()` is caught in place and the switch goes on, which is exactly the modelled path.
- Pages without the camera script are left out. On those, `getDominantEmotion` and `resetEmotionStats` are absent, so the camera never chooses and the scores are never reset. The model always has the camera buffer.
- Emotions.Lookup: `PLAYLISTS[name]` on a plain object also answers inherited names such as `constructor`. Only the four own keys are modelled. Button names come from the page's four `data-emotion` attributes.
- A `null` button attribute is left out. `PLAYLISTS[null]` is undefined, so it is rejected like any unknown name; the model's names are strings.
- Camera.AddFrame: `MULT[k] ?? 1` never falls back, because `k` is always one of the four keys. Values that are not numbers at all (`Number.isFinite` on a string) are outside the `Number` type.
- Camera.Dominant: is modelled as the earliest maximal key, which is what the stable descending sort puts first. `NaN` scores are left out: the sort comparator is then inconsistent, and scores are sums of finite values anyway.
- Camera.Stats: exact reals replace IEEE doubles. The source multiplies after dividing; in reals the order makes no difference.
- Player.PreEnd: sample fields are integers, and a missing, `null`, `NaN` or 0 value is 0, as the `||` fallbacks make them. Fractional positions are left out.
- TimeFormat.MsToTime: `toString` switches to exponent notation at 1e21 minutes. Such durations are left out, and `ToStringRadix` writes plain digits for every natural number.
