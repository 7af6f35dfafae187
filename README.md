# HTR transcription bot: session bookkeeping and conversation transitions

A Telegram bot hands each user a random text from a Drive folder, tells them the
text's code, and collects photos of their handwritten copy into an archive chat,
captioning each photo `{code}_{n}`. Its only state is two process-wide
dictionaries keyed by user id: `user_codes` (the code of the text the user was
last given) and `user_photo_counts` (how many photo-state messages they sent
since). This project models the three handlers that read and write them, and
proves what they promise.

- `wrappers.dfy` — `Option` and `Lookup` (Python's `dict.get`).
- `naming.dfy` — module `Naming`: `StripTxt`, the code derived from a file
  name (`name.replace('.txt', '')`, bot.py:64); `DecimalString`, Python's
  `str(n)` for the counter; `Caption`, the caption `{code}_{n}` (bot.py:110);
  and `ParseCaption`, a caption parser used as the caption's inverse.
- `bot.dfy` — module `Bot`: the value of the two dictionaries (`Sessions`, with
  the invariant that both have the same users), one step function per handler
  giving the new dictionaries, the replies, the next conversation state and the
  archived upload, and the class `SessionStore` whose fields are the two
  dictionaries and whose methods update them in place, each proved equal to its
  step function.
- `trace.dfy` — module `Trace`: handler calls run one after another over the
  same dictionaries, and what the dictionaries hold after any history.

Inputs that come from outside are parameters: the Drive listing is a
`seq<FileMeta>`, `random.choice` is a caller-supplied index into it, the
downloaded and decoded file body is a `string`, and a message's photo is the
sequence of its size variants (empty when the message has none). The Telegram
replies and the archive `send_photo` are outputs of each handler
(`Outcome.replies`, whose `Reply.Text` gives each message's exact wording, and
`Outcome.archived`).

In these places the code does something other than a plain reading of its purpose suggests; the model follows the code:

- The code is derived with `str.replace`, which removes every occurrence of
  ".txt", not only a trailing extension: `notes.txt.bak.txt` gives `notes.bak`
  (`Naming.InnerTxtRemoved`), and a name that has ".txt" only in the middle
  loses it too. For a name `base.txt` whose base has no ".txt",
  the code is `base` (`Naming.StripTxtExtension`).
- `receive_photo` increments the counter before it looks for a photo, so a
  message without a photo consumes a number and the next photo is archived as
  `code_2` (`Trace.PromptLeavesGap`). The handler is registered behind a photo
  filter, so in the running bot this branch is not reached.
- A caption is unique only within one session: two users given the same file
  both archive `{code}_1`, and so does one user given the same file again by a
  later `/gettext`.
- `start` returns `None` (no change of conversation state) and leaves both
  dictionaries untouched.

## Model

| member | source | states |
|---|---|---|
| `Naming.StripTxtShrinks` | bot.py:64 | the code is never longer than the file name, and is exactly as long iff the name contains no ".txt" (in which case it is the name itself) |
| `Naming.StripTxtIdentity` | bot.py:64 | a name is its own code iff it contains no ".txt" |
| `Naming.StripTxtConcat` | bot.py:64 | removing ".txt" distributes over a concatenation whose right part starts with '.' (no occurrence straddles the join) |
| `Naming.StripTxtExtension` | bot.py:64 | the file `base.txt` gets the code `base` when `base` has no ".txt" of its own |
| `Naming.InnerTxtRemoved` | bot.py:64 | every ".txt" is removed, not only the extension: `a.txt` followed by `b.txt` gives `ab` (so `notes.txt.bak.txt` gives `notes.bak`) |
| `Naming.DecimalString` | bot.py:103-110 | the counter as written into the caption is a non-empty string of decimal digits with no leading zero |
| `Naming.DecimalRoundTrip` | bot.py:103-110 | reading the decimal string of a counter back gives the counter |
| `Naming.CaptionRoundTrip` | bot.py:110 | the caption `{code}_{n}` parses back to exactly that code and number, even when the code contains underscores |
| `Naming.CaptionInjective` | bot.py:103-110 | two captions are equal iff their codes and their numbers are equal, so no two archived photos of one session share a caption |
| `Bot.StartStep` | bot.py:42-47 | `start` sends the greeting, asks for no change of conversation state, archives nothing and leaves both dictionaries as they were |
| `Bot.GetTextStep` | bot.py:51-82 | with an empty listing: the "no texts" notice, END, both dictionaries unchanged; otherwise the user's code becomes the chosen file name without ".txt" and their counter 0 whatever they held before, the replies are the text with its code and the photo request, the next state is WAITING_PHOTO; every other user's entries are unchanged; the two dictionaries keep the same users |
| `Bot.ReceivePhotoStep` | bot.py:87-115 | a user without a code gets the "get a text first" reply and END, nothing changes and nothing is archived; for a user with a code, the code stays, their counter goes up by exactly one and no other counter moves; with a photo, its last (largest) variant is archived captioned `{code}_{new count}`, the reply is the upload confirmation and the state END; without one, the reply asks for an image and the state stays WAITING_PHOTO |
| `Bot.SessionStore.constructor` | bot.py:32-33 | both dictionaries start empty |
| `Bot.SessionStore.Start` | bot.py:42-47 | the handler's outcome is that of `StartStep`, and it changes neither dictionary |
| `Bot.SessionStore.GetText` | bot.py:51-82 | updating the two dictionaries in place leaves them and the outcome exactly as `GetTextStep` gives from the old ones, and keeps them on the same users |
| `Bot.SessionStore.ReceivePhoto` | bot.py:87-115 | updating the counter in place leaves the dictionaries and the outcome exactly as `ReceivePhotoStep` gives from the old ones; the shared key set is what makes the counter lookup at line 94 safe |
| `Trace.Apply` | bot.py:42-115 | each of the three handlers keeps `user_codes` and `user_photo_counts` on the same users |
| `Trace.Run` | bot.py:32-33 | after any sequence of handler calls the two dictionaries still have the same users, and every call has an outcome |
| `Trace.SessionsFollowHistory` | bot.py:76-95 | from empty dictionaries, a user has a code exactly when they were given a text, the code is that of the last text, and the counter is the number of photo-state messages they sent since |
| `Trace.PhotosCounted` | bot.py:76-95 | after one successful `/gettext` and N photo-state messages, the user's code is the one that `/gettext` assigned and the counter is N |
| `Trace.PhotosNumberedFromOne` | bot.py:76-115 | after one successful `/gettext`, N messages that carry photos are archived as `code_1` to `code_N` in order, with no gaps, each with the upload confirmation and END |
| `Trace.PromptLeavesGap` | bot.py:93-100 | a message without a photo gets the image prompt and keeps WAITING_PHOTO, but still uses up a number: the photo after it is archived as `code_2` |
| `Trace.GetTextOverwrites` | bot.py:76-78 | a second successful `/gettext` gives the same dictionaries and outcome as if the first had not happened |

## Left out

- The FastAPI webhook and the update queue (bot.py:130-135): HTTP plumbing.
- Environment and credential loading and the Drive client (bot.py:16-29): configuration and a foreign library.
- The Drive `files().list` query, `get_media`, the chunked `MediaIoBaseDownload` loop and the UTF-8 decoding (bot.py:52-55, 66-74): network I/O; the listing and the decoded body are parameters, and the download is assumed to have returned the body of the chosen file.
- `random.choice` (bot.py:61): a caller-supplied index into the listing.
- The Telegram calls `get_file`, `download_to_drive`, `send_photo`, `reply_text`, and the temporary file `{code}_{n}.jpg` that is written and removed (bot.py:102-113): I/O; the archived photo is recorded as its file id and caption, and the archive chat id is fixed configuration.
- Exceptions raised by any of these calls: an error after line 94 leaves the counter already incremented with nothing archived; the model has no failure path for I/O.
- The `ConversationHandler` routing, its `filters.PHOTO` filter and the state table (bot.py:117-127): framework behaviour not visible in this repository. The handlers return the next state; which handler the framework calls for the next message is not modelled. In particular, after END the framework routes a further photo to no handler, so in the running bot a counter normally reaches 1 before the next `/gettext`.
- The greeting's use of `effective_user.first_name` is a parameter; the user id is an `int`.
- Async/await and interleaving of different users' events: the model is the sequential per-event logic.
