/**
 * The bot's per-user session bookkeeping and conversation transitions.
 *
 * Two process-wide dictionaries keyed by user id hold the code of the text a
 * user was last given and the number of photos numbered for it since. Three
 * handlers read and update them: `start` (greeting), `get_text` (hand out a
 * text, reset the session) and `receive_photo` (number a photo and forward it
 * to the archive). Each handler answers with the next conversation state, the
 * replies it sends to the user and, for an accepted photo, what it forwards to
 * the archive chat. The Drive listing, the download, the random choice and the
 * Telegram calls are parameters and outputs.
 */
module Bot {
  import opened Wrappers
  import opened Naming

  /** Telegram's numeric user id. */
  type UserId = int

  /** One entry of the Drive listing: `files(id, name)`. */
  datatype FileMeta = FileMeta(id: string, name: string)

  /** One size variant of a received photo, smallest first as Telegram sends them. */
  datatype PhotoSize = PhotoSize(fileId: string)

  /**
   * What a handler returns to the conversation framework: `WAITING_PHOTO`
   * (the constant 1), `ConversationHandler.END`, or Python's `None`, which
   * asks for no change of state.
   */
  datatype Next = WaitingPhoto | End | NoTransition

  /** A photo forwarded to the archive chat with its caption. */
  datatype Upload = Upload(fileId: string, caption: string)

  /** The messages the handlers send back to the user. */
  datatype Reply =
    | Greeting(firstName: string)
    | NoTexts
    | TextWithCode(text: string, code: string)
    | PhotoRequest
    | GetTextFirst
    | SendImage
    | Uploaded
  {
    /** The exact text of the message. */
    function Text(): string
    {
      match this
      case Greeting(name) =>
        " 👋 Здравствуйте, " + name + "!\nБот запущен. Нажмите /gettext для получения текста.\n"
      case NoTexts => "Нет доступных текстов."
      case TextWithCode(text, code) => text + "\n\nВаш код: " + code
      case PhotoRequest => "Теперь отправьте фото (JPG или PNG)."
      case GetTextFirst => "Сначала получите текст с помощью /gettext."
      case SendImage => "Пожалуйста, отправьте изображение."
      case Uploaded => "Фото успешно загружено. Спасибо!"
    }
  }

  /** Everything a handler call produces besides its effect on the session maps. */
  datatype Outcome = Outcome(next: Next, replies: seq<Reply>, archived: Option<Upload>)

  /** The value of the two dictionaries `user_codes` and `user_photo_counts`. */
  datatype Sessions = Sessions(codes: map<UserId, string>, counts: map<UserId, nat>)
  {
    /** Both dictionaries are written together, so they always have the same users. */
    predicate Valid()
    {
      codes.Keys == counts.Keys
    }
  }

  const NoSessions := Sessions(map[], map[])

  /** The `start` handler: a greeting, no change to the sessions, no change of state. */
  function StartStep(s: Sessions, firstName: string): (r: (Sessions, Outcome))
    ensures r.0 == s
    ensures r.1.next == NoTransition && r.1.archived == None
    ensures r.1.replies == [Greeting(firstName)]
  {
    (s, Outcome(NoTransition, [Greeting(firstName)], None))
  }

  /**
   * The `get_text` handler, given the Drive listing `files`, the index
   * `choice` that `random.choice` picks and the downloaded `content` of that file.
   */
  function GetTextStep(s: Sessions, user: UserId, files: seq<FileMeta>, choice: nat, content: string)
    : (r: (Sessions, Outcome))
    requires files != [] ==> choice < |files|
    // An empty listing: a notice, END, and neither dictionary changes.
    ensures files == [] ==> r.0 == s && r.1 == Outcome(End, [NoTexts], None)
    // Otherwise the user's session is (re)written whatever it held before.
    ensures files != [] ==>
      var code := StripTxt(files[choice].name);
      && Lookup(r.0.codes, user) == Some(code)
      && Lookup(r.0.counts, user) == Some(0)
      && r.1 == Outcome(WaitingPhoto, [TextWithCode(content, code), PhotoRequest], None)
    // Nobody else's session changes.
    ensures forall v :: v != user ==> Lookup(r.0.codes, v) == Lookup(s.codes, v)
    ensures forall v :: v != user ==> Lookup(r.0.counts, v) == Lookup(s.counts, v)
    ensures s.Valid() ==> r.0.Valid()
  {
    if files == [] then
      (s, Outcome(End, [NoTexts], None))
    else
      var code := StripTxt(files[choice].name);
      (Sessions(s.codes[user := code], s.counts[user := 0]),
       Outcome(WaitingPhoto, [TextWithCode(content, code), PhotoRequest], None))
  }

  /**
   * The `receive_photo` handler, given the size variants of the message's
   * photo (empty when the message has none).
   */
  function ReceivePhotoStep(s: Sessions, user: UserId, photos: seq<PhotoSize>): (r: (Sessions, Outcome))
    requires s.Valid()
    ensures r.0.Valid()
    // No session: a corrective reply, END, nothing changed, nothing archived.
    ensures user !in s.codes ==> r.0 == s && r.1 == Outcome(End, [GetTextFirst], None)
    // A session: its code stays, its counter goes up by exactly one, no other counter moves.
    ensures user in s.codes ==>
      && r.0.codes == s.codes
      && user in r.0.counts && r.0.counts[user] == s.counts[user] + 1
      && forall v :: v != user ==> Lookup(r.0.counts, v) == Lookup(s.counts, v)
    // A photo: its largest variant is archived as `{code}_{new count}`, then END.
    ensures user in s.codes && photos != [] ==>
      r.1 == Outcome(End, [Uploaded],
                     Some(Upload(photos[|photos| - 1].fileId, Caption(s.codes[user], s.counts[user] + 1))))
    // No photo: the counter has still moved; a prompt, and the conversation keeps waiting.
    ensures user in s.codes && photos == [] ==> r.1 == Outcome(WaitingPhoto, [SendImage], None)
  {
    if user !in s.codes then
      (s, Outcome(End, [GetTextFirst], None))
    else
      var code := s.codes[user];
      var suffix := s.counts[user] + 1;
      var s' := Sessions(s.codes, s.counts[user := suffix]);
      if photos == [] then
        (s', Outcome(WaitingPhoto, [SendImage], None))
      else
        (s', Outcome(End, [Uploaded], Some(Upload(photos[|photos| - 1].fileId, Caption(code, suffix)))))
  }

  /**
   * The two dictionaries as the process holds them, and the three handlers
   * that update them in place.
   */
  class SessionStore {
    var userCodes: map<UserId, string>
    var userPhotoCounts: map<UserId, nat>

    ghost predicate Valid()
      reads this
    {
      View().Valid()
    }

    function View(): Sessions
      reads this
    {
      Sessions(userCodes, userPhotoCounts)
    }

    constructor ()
      ensures Valid() && View() == NoSessions
    {
      userCodes := map[];
      userPhotoCounts := map[];
    }

    method Start(firstName: string) returns (out: Outcome)
      ensures (View(), out) == StartStep(View(), firstName)
    {
      out := Outcome(NoTransition, [Greeting(firstName)], None);
    }

    method GetText(user: UserId, files: seq<FileMeta>, choice: nat, content: string) returns (out: Outcome)
      requires Valid()
      requires files != [] ==> choice < |files|
      modifies this
      ensures Valid()
      ensures (View(), out) == GetTextStep(old(View()), user, files, choice, content)
    {
      if files == [] {
        out := Outcome(End, [NoTexts], None);
        return;
      }
      var file := files[choice];
      var code := StripTxt(file.name);
      userCodes := userCodes[user := code];
      userPhotoCounts := userPhotoCounts[user := 0];
      out := Outcome(WaitingPhoto, [TextWithCode(content, code), PhotoRequest], None);
    }

    method ReceivePhoto(user: UserId, photos: seq<PhotoSize>) returns (out: Outcome)
      requires Valid()
      modifies this
      ensures Valid()
      ensures (View(), out) == ReceivePhotoStep(old(View()), user, photos)
    {
      if user !in userCodes {
        out := Outcome(End, [GetTextFirst], None);
        return;
      }
      var code := userCodes[user];
      userPhotoCounts := userPhotoCounts[user := userPhotoCounts[user] + 1];
      var suffix := userPhotoCounts[user];
      if photos == [] {
        out := Outcome(WaitingPhoto, [SendImage], None);
        return;
      }
      var photo := photos[|photos| - 1];
      out := Outcome(End, [Uploaded], Some(Upload(photo.fileId, Caption(code, suffix))));
    }
  }
}
