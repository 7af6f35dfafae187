/**
 * Runs of the handlers one after another over the same session maps, as the
 * process does for the events it receives, and what the maps then hold.
 */
module Trace {
  import opened Wrappers
  import opened Naming
  import opened Bot

  /** One handler call: `/start`, `/gettext`, or a message in the photo state. */
  datatype Event =
    | StartCmd(user: UserId, firstName: string)
    | GetTextCmd(user: UserId, files: seq<FileMeta>, choice: nat, content: string)
    | PhotoMsg(user: UserId, photos: seq<PhotoSize>)

  /** `random.choice` picks an element of a non-empty listing. */
  predicate WellFormed(e: Event)
  {
    e.GetTextCmd? && e.files != [] ==> e.choice < |e.files|
  }

  predicate AllWellFormed(events: seq<Event>)
  {
    forall i :: 0 <= i < |events| ==> WellFormed(events[i])
  }

  function Apply(s: Sessions, e: Event): (r: (Sessions, Outcome))
    requires s.Valid() && WellFormed(e)
    ensures r.0.Valid()
  {
    match e
    case StartCmd(_, name) => StartStep(s, name)
    case GetTextCmd(user, files, choice, content) => GetTextStep(s, user, files, choice, content)
    case PhotoMsg(user, photos) => ReceivePhotoStep(s, user, photos)
  }

  /** The maps after handling `events` in order from `s`, and each call's outcome. */
  function Run(s: Sessions, events: seq<Event>): (r: (Sessions, seq<Outcome>))
    requires s.Valid() && AllWellFormed(events)
    ensures r.0.Valid() && |r.1| == |events|
    decreases |events|
  {
    if events == [] then (s, [])
    else
      var (t, outs) := Run(s, events[..|events| - 1]);
      var (t', out) := Apply(t, events[|events| - 1]);
      (t', outs + [out])
  }

  /** The event that (re)writes `user`'s session. */
  predicate Assigns(e: Event, user: UserId)
  {
    e.GetTextCmd? && e.user == user && e.files != []
  }

  /** The code of the text `user` was given last, if any. */
  function LastCode(events: seq<Event>, user: UserId): Option<string>
    requires AllWellFormed(events)
    decreases |events|
  {
    if events == [] then None
    else
      var e := events[|events| - 1];
      if Assigns(e, user) then Some(StripTxt(e.files[e.choice].name))
      else LastCode(events[..|events| - 1], user)
  }

  /** How many messages `user` sent in the photo state since the last text they were given. */
  function MessagesSince(events: seq<Event>, user: UserId): nat
    decreases |events|
  {
    if events == [] then 0
    else
      var e := events[|events| - 1];
      if Assigns(e, user) then 0
      else if e.PhotoMsg? && e.user == user then MessagesSince(events[..|events| - 1], user) + 1
      else MessagesSince(events[..|events| - 1], user)
  }

  /**
   * From empty dictionaries, the maps are a function of the history: a user
   * has a session exactly when they were given a text, its code is that of the
   * last text, and its counter is the number of photo-state messages since.
   */
  lemma {:induction false} SessionsFollowHistory(events: seq<Event>, user: UserId)
    requires AllWellFormed(events)
    ensures var t := Run(NoSessions, events).0;
      && Lookup(t.codes, user) == LastCode(events, user)
      && (user in t.counts ==> t.counts[user] == MessagesSince(events, user))
    decreases |events|
  {
    if events != [] {
      var prefix := events[..|events| - 1];
      SessionsFollowHistory(prefix, user);
    }
  }

  /** Messages, one per element of `messages`, that `user` sends in the photo state. */
  function PhotoMsgs(user: UserId, messages: seq<seq<PhotoSize>>): (r: seq<Event>)
    ensures |r| == |messages|
    ensures forall i :: 0 <= i < |r| ==> r[i] == PhotoMsg(user, messages[i])
  {
    seq(|messages|, i requires 0 <= i < |messages| => PhotoMsg(user, messages[i]))
  }

  /** Handling one more event extends the run by that event's step. */
  lemma RunSnoc(s: Sessions, events: seq<Event>, e: Event)
    requires s.Valid() && AllWellFormed(events) && WellFormed(e)
    ensures AllWellFormed(events + [e])
    ensures var (t, outs) := Run(s, events);
      Run(s, events + [e]) == (Apply(t, e).0, outs + [Apply(t, e).1])
  {
    assert (events + [e])[..|events|] == events;
  }

  /** A `/gettext` by `user` followed by their photo-state messages. */
  function GetTextThenPhotos(user: UserId, files: seq<FileMeta>, choice: nat, content: string,
                             messages: seq<seq<PhotoSize>>): (r: seq<Event>)
    requires choice < |files|
    ensures AllWellFormed(r)
  {
    [GetTextCmd(user, files, choice, content)] + PhotoMsgs(user, messages)
  }

  lemma GetTextThenPhotosSnoc(user: UserId, files: seq<FileMeta>, choice: nat, content: string,
                               messages: seq<seq<PhotoSize>>)
    requires choice < |files| && messages != []
    ensures GetTextThenPhotos(user, files, choice, content, messages)
            == GetTextThenPhotos(user, files, choice, content, messages[..|messages| - 1])
               + [PhotoMsg(user, messages[|messages| - 1])]
  {
    var init := messages[..|messages| - 1];
    var a := GetTextThenPhotos(user, files, choice, content, messages);
    var b := GetTextThenPhotos(user, files, choice, content, init) + [PhotoMsg(user, messages[|messages| - 1])];
    assert |a| == |b|;
    forall i | 0 <= i < |a| ensures a[i] == b[i] {
      if 0 < i < |a| - 1 {
        assert a[i] == PhotoMsg(user, messages[i - 1]);
        assert b[i] == PhotoMsg(user, init[i - 1]);
      }
    }
  }

  /** The outcome of a message whose photo is archived as the `n`-th of `code`. */
  function Accepted(photos: seq<PhotoSize>, code: string, n: nat): Outcome
    requires photos != []
  {
    Outcome(End, [Uploaded], Some(Upload(photos[|photos| - 1].fileId, Caption(code, n))))
  }

  /** `outs[1..]` are the outcomes of `messages`, archived as `code_1`, `code_2`, ... */
  predicate NumberedFromOne(outs: seq<Outcome>, messages: seq<seq<PhotoSize>>, code: string)
  {
    && |outs| == |messages| + 1
    && forall i :: 0 <= i < |messages| ==> messages[i] != [] && outs[i + 1] == Accepted(messages[i], code, i + 1)
  }

  lemma NumberedFromOneSnoc(outs: seq<Outcome>, messages: seq<seq<PhotoSize>>, code: string)
    requires messages != [] && messages[|messages| - 1] != []
    requires NumberedFromOne(outs, messages[..|messages| - 1], code)
    ensures NumberedFromOne(outs + [Accepted(messages[|messages| - 1], code, |messages|)], messages, code)
  {
    var init := messages[..|messages| - 1];
    var outs' := outs + [Accepted(messages[|messages| - 1], code, |messages|)];
    forall i | 0 <= i < |messages|
      ensures messages[i] != [] && outs'[i + 1] == Accepted(messages[i], code, i + 1)
    {
      if i < |init| {
        assert messages[i] == init[i] && outs'[i + 1] == outs[i + 1];
      }
    }
  }

  /** After one successful `/gettext` and N photo-state messages, the code stands and the counter is N. */
  lemma {:induction false} PhotosCounted(
    s: Sessions, user: UserId, files: seq<FileMeta>, choice: nat, content: string,
    messages: seq<seq<PhotoSize>>)
    requires s.Valid() && choice < |files|
    ensures var t := Run(s, GetTextThenPhotos(user, files, choice, content, messages)).0;
      && Lookup(t.codes, user) == Some(StripTxt(files[choice].name))
      && Lookup(t.counts, user) == Some(|messages|)
    decreases |messages|
  {
    var gt := GetTextCmd(user, files, choice, content);
    if messages == [] {
      assert GetTextThenPhotos(user, files, choice, content, messages) == [] + [gt] by {
        assert PhotoMsgs(user, messages) == [];
      }
      RunSnoc(s, [], gt);
    } else {
      var init, photos := messages[..|messages| - 1], messages[|messages| - 1];
      PhotosCounted(s, user, files, choice, content, init);
      GetTextThenPhotosSnoc(user, files, choice, content, messages);
      RunSnoc(s, GetTextThenPhotos(user, files, choice, content, init), PhotoMsg(user, photos));
    }
  }

  /**
   * After one successful `/gettext`, N messages that each carry a photo are
   * archived as `code_1` to `code_N`, in order, and each ends the conversation.
   */
  lemma {:induction false} PhotosNumberedFromOne(
    s: Sessions, user: UserId, files: seq<FileMeta>, choice: nat, content: string,
    messages: seq<seq<PhotoSize>>)
    requires s.Valid() && choice < |files|
    requires forall i :: 0 <= i < |messages| ==> messages[i] != []
    ensures NumberedFromOne(Run(s, GetTextThenPhotos(user, files, choice, content, messages)).1,
                            messages, StripTxt(files[choice].name))
    decreases |messages|
  {
    var gt := GetTextCmd(user, files, choice, content);
    if messages == [] {
      assert GetTextThenPhotos(user, files, choice, content, messages) == [] + [gt] by {
        assert PhotoMsgs(user, messages) == [];
      }
      RunSnoc(s, [], gt);
    } else {
      var init, photos := messages[..|messages| - 1], messages[|messages| - 1];
      var shorter := GetTextThenPhotos(user, files, choice, content, init);
      PhotosNumberedFromOne(s, user, files, choice, content, init);
      PhotosCounted(s, user, files, choice, content, init);
      GetTextThenPhotosSnoc(user, files, choice, content, messages);
      RunSnoc(s, shorter, PhotoMsg(user, photos));
      var before := Run(s, shorter);
      var code := StripTxt(files[choice].name);
      assert Apply(before.0, PhotoMsg(user, photos)).1 == Accepted(photos, code, |messages|);
      NumberedFromOneSnoc(before.1, messages, code);
    }
  }

  /**
   * A message without a photo still advances the counter, so the photo that
   * follows it is archived as `code_2`, not `code_1`.
   */
  lemma PromptLeavesGap(s: Sessions, user: UserId, files: seq<FileMeta>, choice: nat, content: string,
                        photos: seq<PhotoSize>)
    requires s.Valid() && choice < |files| && photos != []
    ensures var events := [GetTextCmd(user, files, choice, content), PhotoMsg(user, []), PhotoMsg(user, photos)];
      AllWellFormed(events) &&
      var (t, outs) := Run(s, events);
      && outs[1] == Outcome(WaitingPhoto, [SendImage], None)
      && outs[2].archived == Some(Upload(photos[|photos| - 1].fileId, Caption(StripTxt(files[choice].name), 2)))
  {
    var events := [GetTextCmd(user, files, choice, content), PhotoMsg(user, []), PhotoMsg(user, photos)];
    var first := events[..1];
    assert events[..2][..1] == first;
    var s1 := GetTextStep(s, user, files, choice, content).0;
    assert Run(s, first).0 == s1;
    var s2 := ReceivePhotoStep(s1, user, []).0;
    assert Run(s, events[..2]).0 == s2;
    assert Lookup(s2.counts, user) == Some(1);
  }

  /** A second `/gettext` right after a first replaces the session the first one wrote. */
  lemma GetTextOverwrites(s: Sessions, user: UserId, files1: seq<FileMeta>, choice1: nat, content1: string,
                          files2: seq<FileMeta>, choice2: nat, content2: string)
    requires files1 != [] ==> choice1 < |files1|
    requires choice2 < |files2|
    ensures GetTextStep(GetTextStep(s, user, files1, choice1, content1).0, user, files2, choice2, content2)
            == GetTextStep(s, user, files2, choice2, content2)
  {
    if files1 != [] {
      var code1, code2 := StripTxt(files1[choice1].name), StripTxt(files2[choice2].name);
      assert s.codes[user := code1][user := code2] == s.codes[user := code2];
      assert s.counts[user := 0][user := 0] == s.counts[user := 0];
    }
  }
}
