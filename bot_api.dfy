/**
  What the handlers see of the Telegram Bot API and of the language files. The
  API calls themselves are outside the model: a membership or chat lookup is a
  function given to the handler, and every send is returned as an `Action`
  value, in the order the handler issues it.
 */
module BotApi {

  import opened Wrappers

  /** Outcome of `bot.get_chat_member(channel, user)`: raised an exception, or returned a member with this status. */
  datatype MemberLookup = Error | Status(status: string)

  /** Outcome of `bot.get_chat(channel)`: raised an exception, or returned a chat whose `username` may be unset. */
  datatype ChatLookup = ChatError | Chat(username: Option<string>)

  /** An inline button that opens a URL. */
  datatype Button = Button(text: string, url: string)

  /**
    The reply markup attached to a message. Button texts and layout of the
    menus are not modelled; what remains is which menu is attached and, for
    the main keyboard, the language its labels are drawn from.
   */
  datatype Markup =
    | NoMarkup
    | MainKeyboard(lang: string)
    | LanguageMenu
    | AdminLink(url: string)
    | UrlButtons(buttons: seq<Button>)

  /** One outbound call to the Bot API. */
  datatype Action =
    | Message(chatId: int, text: string, markup: Markup)       // bot.send_message
    | ChatAction(chatId: int, action: string)                  // bot.send_chat_action
    | Video(chatId: int, path: string)                         // bot.send_video with the file at path

  /**
    The entries of one `langs/<code>.json` table that the handlers read. Their
    contents are opaque; `load_language` is a parameter of the handlers.
   */
  datatype Texts = Texts(
    welcome: string,
    chooseLanguage: string,
    helpText: string,
    adminContact: string,
    enterCode: string,
    subscribeFirst: string,
    subscribeButton: string,
    videoNotFound: string)

  /** An incoming text message: `message.chat.id`, `message.from_user.id`, `message.text`. */
  datatype IncomingMessage = IncomingMessage(chatId: int, userId: int, text: string)
}
