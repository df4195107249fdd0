/**
  The two catch-all handlers of the bot: `handle_code`, which answers every text
  message other than a `/start` command, and `callback_handler`, which answers every inline-button press.
 */
module Handlers {

  import opened Wrappers
  import opened Text
  import opened BotApi
  import Preferences
  import Subscription

  /** The closing messages one of which follows every video sent. */
  const Jokes: seq<string> := [
    "haa krisa \U{1F602}",
    "qzu bosa oxirigacha ko'r \U{1F606}",
    "voy dodaa \U{1F605}",
    "hech narsani o'tkazib yuborma \U{1F923}"]

  const VideoDir: string := "static/videos/"
  const VideoExt: string := ".mp4"

  /** The file a code names: `f"static/videos/{code}.mp4"`. */
  function VideoPath(code: string): string {
    VideoDir + code + VideoExt
  }

  /** Recovers the code from a path of the form `VideoPath` produces. */
  function CodeOfVideoPath(path: string): Option<string> {
    if |path| >= |VideoDir| + |VideoExt| && path[..|VideoDir|] == VideoDir && path[|path| - |VideoExt|..] == VideoExt
    then Some(path[|VideoDir|..|path| - |VideoExt|])
    else None
  }

  /** The path names its code and no other: distinct codes are looked up at distinct paths. */
  lemma VideoPathRoundTrip(code: string)
    ensures CodeOfVideoPath(VideoPath(code)) == Some(code)
  {
    var p := VideoPath(code);
    assert p[..|VideoDir|] == VideoDir;
    assert p[|p| - |VideoExt|..] == VideoExt;
    assert p[|VideoDir|..|p| - |VideoExt|] == code;
  }

  /** What `handle_code` does with one text message. */
  datatype CodeOutcome = SubscriptionPrompt | SendVideo(path: string) | NotFound

  /**
    The branch `handle_code` takes: the gate comes first; only a subscribed user's
    text is stripped into a code, and the existence of that code's file decides
    between the video and the not-found text.
   */
  function Decide(subscribed: bool, text: string, fileExists: string -> bool): (o: CodeOutcome)
    ensures !subscribed <==> o == SubscriptionPrompt
    ensures o.SendVideo? <==> subscribed && fileExists(VideoPath(Strip(text)))
    ensures o.NotFound? <==> subscribed && !fileExists(VideoPath(Strip(text)))
    ensures o.SendVideo? ==> o.path == VideoPath(Strip(text))
    ensures o.SendVideo? ==> CodeOfVideoPath(o.path) == Some(Strip(text))
  {
    if !subscribed then SubscriptionPrompt
    else
      var code := Strip(text);
      var path := VideoPath(code);
      VideoPathRoundTrip(code);
      if fileExists(path) then SendVideo(path) else NotFound
  }

  /** Whitespace around a code never changes the answer. */
  lemma DecideIgnoresSurroundingSpace(subscribed: bool, p: string, text: string, q: string, fileExists: string -> bool)
    requires AllSpace(p) && AllSpace(q)
    ensures Decide(subscribed, p + text + q, fileExists) == Decide(subscribed, text, fileExists)
  {
    StripIgnoresSurroundingSpace(p, text, q);
  }

  /**
    `handle_code`: reads the user's language, runs the gate, and answers with the
    subscription prompt, the video (preceded by the upload indicator and followed
    by one of the jokes), or the not-found text. `probed` is the file whose
    existence was checked, if any; a user who fails the gate causes no probe.
   */
  method HandleCode(
    store: Preferences.PreferenceStore,
    loadLanguage: string -> Texts,
    channels: seq<string>,
    getChatMember: (string, int) -> MemberLookup,
    getChat: string -> ChatLookup,
    fileExists: string -> bool,
    message: IncomingMessage)
    returns (outcome: CodeOutcome, actions: seq<Action>, probed: Option<string>)
    ensures outcome == Decide(Subscription.Subscribed(channels, message.userId, getChatMember), message.text, fileExists)
    ensures probed == if outcome.SubscriptionPrompt? then None else Some(VideoPath(Strip(message.text)))
    ensures var texts := loadLanguage(store.GetUserLang(message.userId));
      match outcome
      case SubscriptionPrompt =>
        actions == [Message(message.chatId, texts.subscribeFirst,
                            UrlButtons(Subscription.InviteButtons(channels, getChat, texts.subscribeButton)))]
      case SendVideo(path) =>
        |actions| == 3 && actions[0] == ChatAction(message.chatId, "upload_video")
        && actions[1] == Video(message.chatId, path)
        && actions[2].Message? && actions[2].chatId == message.chatId
        && actions[2].text in Jokes && actions[2].markup == NoMarkup
      case NotFound =>
        actions == [Message(message.chatId, texts.videoNotFound, NoMarkup)]
  {
    var lang := store.GetUserLang(message.userId);
    var texts := loadLanguage(lang);
    var subscribed, _ := Subscription.CheckSubscription(channels, message.userId, getChatMember);
    if !subscribed {
      var prompt := Subscription.BuildSubscriptionPrompt(message.chatId, channels, getChat, texts);
      return SubscriptionPrompt, [prompt], None;
    }
    var code := Strip(message.text);
    var filepath := VideoPath(code);
    probed := Some(filepath);
    if fileExists(filepath) {
      assert Jokes[0] in Jokes;
      var joke :| joke in Jokes;
      outcome := SendVideo(filepath);
      actions := [ChatAction(message.chatId, "upload_video"), Video(message.chatId, filepath),
                  Message(message.chatId, joke, NoMarkup)];
    } else {
      outcome := NotFound;
      actions := [Message(message.chatId, texts.videoNotFound, NoMarkup)];
    }
  }

  /** The branch `callback_handler` takes for a callback's data. */
  datatype CallbackAction =
    | ShowWelcome
    | ShowLanguageMenu
    | SetLanguage(code: string)
    | ShowHelp
    | ShowAdminContact
    | AskForCode
    | NoAction

  const LangPrefix: string := "lang_"

  /** None of the named callbacks starts with `lang_`, so the order of the branches never matters. */
  lemma NamedDataNotLangPrefixed(data: string)
    ensures data in MainKeyboardData ==> !StartsWith(data, LangPrefix)
  {
    if data in MainKeyboardData && |data| >= |LangPrefix| {
      assert data[0] != 'l' || data[4] != '_';
      assert data[..|LangPrefix|][0] == data[0] && data[..|LangPrefix|][4] == data[4];
    }
  }

  /**
    The `if`/`elif` chain of `callback_handler`. A `lang_` prefix selects the
    language change, with `data.split('_')[1]` as the new tag: the text between
    the first underscore and the next one, or the end. Any other unknown data
    does nothing.
   */
  function Route(data: string): (a: CallbackAction)
    ensures a.SetLanguage? <==> StartsWith(data, LangPrefix)
    ensures a.SetLanguage? ==> a.code == TakeUntil(data[|LangPrefix|..], '_')
    ensures a == NoAction <==>
      data !in MainKeyboardData && !StartsWith(data, LangPrefix)
  {
    NamedDataNotLangPrefixed(data);
    if data == "start" then ShowWelcome
    else if data == "language" then ShowLanguageMenu
    else if StartsWith(data, LangPrefix) then
      SecondPiece(data, "lang", '_');
      SetLanguage(Split(data, '_')[1])
    else if data == "help" then ShowHelp
    else if data == "admin" then ShowAdminContact
    else if data == "code" then AskForCode
    else NoAction
  }

  /** The confirmation sent after a language change. */
  const LanguageChanged: string := "\U{2705} Til o'zgartirildi!"

  /** The admin contact link. */
  const AdminUrl: string := "https://t.me/user6597938319"

  /** The callback data of the buttons on the main keyboard and on the language menu. */
  const MainKeyboardData: seq<string> := ["start", "language", "help", "admin", "code"]
  const LanguageMenuData: seq<string> := ["lang_uz", "lang_ru", "lang_en"]

  /** Every button of the main keyboard leads to one of the named branches. */
  lemma MainKeyboardRoutes()
    ensures forall d :: d in MainKeyboardData ==> Route(d) != NoAction && !Route(d).SetLanguage?
  {
    forall d | d in MainKeyboardData ensures Route(d) != NoAction && !Route(d).SetLanguage? {
      NamedDataNotLangPrefixed(d);
    }
  }

  /** The three buttons of the language menu set `uz`, `ru` and `en`. */
  lemma LanguageMenuRoutes()
    ensures Route(LanguageMenuData[0]) == SetLanguage("uz")
    ensures Route(LanguageMenuData[1]) == SetLanguage("ru")
    ensures Route(LanguageMenuData[2]) == SetLanguage("en")
  {
    LanguageMenuEntry("lang_uz", "uz");
    LanguageMenuEntry("lang_ru", "ru");
    LanguageMenuEntry("lang_en", "en");
  }

  /** `lang_` followed by any tag without an underscore sets exactly that tag. */
  lemma LanguageMenuEntry(data: string, code: string)
    requires '_' !in code && data == LangPrefix + code
    ensures Route(data) == SetLanguage(code)
  {
    assert StartsWith(data, LangPrefix);
    assert data[|LangPrefix|..] == code;
    TakeUntilNoSep(code, '_', []);
  }

  /**
    The messages one callback produces. `lang` is the user's language read
    before the branch runs; a language change answers with a keyboard in the new
    language.
   */
  function Replies(a: CallbackAction, chatId: int, lang: string, texts: Texts): (out: seq<Action>)
    ensures |out| <= 1
    ensures out == [] <==> a == NoAction
  {
    match a
    case ShowWelcome => [Message(chatId, texts.welcome, MainKeyboard(lang))]
    case ShowLanguageMenu => [Message(chatId, texts.chooseLanguage, LanguageMenu)]
    case SetLanguage(code) => [Message(chatId, LanguageChanged, MainKeyboard(code))]
    case ShowHelp => [Message(chatId, texts.helpText, NoMarkup)]
    case ShowAdminContact => [Message(chatId, texts.adminContact, AdminLink(AdminUrl))]
    case AskForCode => [Message(chatId, texts.enterCode, NoMarkup)]
    case NoAction => []
  }

  /**
    `callback_handler`: routes the data, stores the new tag on a language change
    and leaves the store alone otherwise, and sends at most one message.
   */
  method HandleCallback(
    store: Preferences.PreferenceStore,
    loadLanguage: string -> Texts,
    chatId: int,
    userId: int,
    data: string)
    returns (actions: seq<Action>)
    modifies store
    ensures var lang := old(store.GetUserLang(userId));
      actions == Replies(Route(data), chatId, lang, loadLanguage(lang))
    ensures Route(data).SetLanguage? ==>
      store.document == Some(old(store.Users())[Preferences.UserKey(userId) := Route(data).code])
    ensures Route(data).SetLanguage? ==>
      store.GetUserLang(userId) == Route(data).code
      && forall other :: other != userId ==> store.GetUserLang(other) == old(store.GetUserLang(other))
    ensures !Route(data).SetLanguage? ==> store.document == old(store.document)
  {
    var lang := store.GetUserLang(userId);
    var texts := loadLanguage(lang);
    if data == "start" {
      actions := [Message(chatId, texts.welcome, MainKeyboard(lang))];
    } else if data == "language" {
      actions := [Message(chatId, texts.chooseLanguage, LanguageMenu)];
    } else if StartsWith(data, LangPrefix) {
      SecondPiece(data, "lang", '_');
      var langCode := Split(data, '_')[1];
      store.SetUserLang(userId, langCode);
      actions := [Message(chatId, LanguageChanged, MainKeyboard(langCode))];
    } else if data == "help" {
      actions := [Message(chatId, texts.helpText, NoMarkup)];
    } else if data == "admin" {
      actions := [Message(chatId, texts.adminContact, AdminLink(AdminUrl))];
    } else if data == "code" {
      actions := [Message(chatId, texts.enterCode, NoMarkup)];
    } else {
      actions := [];
    }
  }
}
