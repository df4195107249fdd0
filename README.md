# Telegram video-code bot: decision layer

This project models the decision logic of a Telegram bot (`main.py`) that sends
a video for a short code a user types, but only to users subscribed to every
configured channel, and that keeps a per-user interface language.

What is modelled, module by module:

- `Preferences`: the language preference store behind `get_user_lang` and
  `set_user_lang`. `users.json` is the field `document` of class
  `PreferenceStore`: `None` while the file does not exist, otherwise the decoded
  map from `str(user_id)` to a language tag. A missing file or key reads as
  `"uz"`. A write reads the whole map, sets one key and writes the whole map back.
- `Subscription`: the fail-closed gate `check_subscription`, a loop over the
  channels that stops at the first error or `left`/`kicked` status, and the
  button filter of `send_subscription_prompt`.
- `Handlers`: `handle_code` (gate, then `strip()`, then the existence of
  `static/videos/<code>.mp4` picks the video or the not-found text) and
  `callback_handler` (an `if`/`elif` chain over the callback data, with the
  `lang_` branch storing `data.split('_')[1]`).
- `Text` and `Decimal`: the Python built-ins these depend on, `str.strip()`
  (with Python's full `isspace` set), `str.startswith`, `str.split` with a
  one-character separator, and `str(int)`.
- `BotApi`: the values exchanged with the Bot API. Lookups are function
  parameters, and every send is returned as an `Action` in issue order.

An empty or all-whitespace text is not special-cased: it probes the file
`static/videos/.mp4`, which `Handlers.Decide` models.

## Model

| member | source | states |
|---|---|---|
| `Preferences.PreferenceStore.GetUserLang` | main.py:39-45 | with no file, or no entry for `str(user_id)`, the tag is `"uz"`; otherwise it is the stored tag |
| `Preferences.PreferenceStore.Users` | main.py:40-44 | the map read from `users.json`, or `{}` when the file does not exist; `set_user_lang` reads it the same way at main.py:48-52 |
| `Preferences.PreferenceStore.SetUserLang` | main.py:47-55 | afterwards the file exists and holds the old map (empty if there was no file) with this user's key set; this user reads back the new tag and every other user reads what they read before |
| `Preferences.UserKey` | main.py:45 | a user's entry is stored under the decimal text `str(user_id)` |
| `Preferences.UserKeyInjective` | main.py:53 | distinct user ids give distinct `str(user_id)` keys, so writing one user's entry never overwrites another's |
| `Decimal.NatToString` | main.py:45 | `str(n)` of a non-negative integer is a non-empty digit string with no leading zero |
| `Decimal.NatRoundTrip` | main.py:45 | reading the digits of `str(n)` gives back `n` |
| `Decimal.IntToString` | main.py:45 | `str(i)` is non-empty and starts with `-` exactly when `i` is negative |
| `Decimal.IntRoundTrip` | main.py:45 | `int(str(i)) == i` for every integer |
| `Decimal.IntToStringInjective` | main.py:53 | distinct integers have distinct decimal texts |
| `Text.IsSpace` | main.py:137 | the characters `strip()` removes: exactly Python's `str.isspace()` set (U+0009–U+000D, U+001C–U+0020, U+0085, U+00A0, U+1680, U+2000–U+200A, U+2028, U+2029, U+202F, U+205F, U+3000) |
| `Text.SkipSpace` | main.py:137 | the scan forward stops at the first character that is not whitespace, or at the end, and passes only whitespace |
| `Text.BackSpace` | main.py:137 | the scan backward stops just after the last character that is not whitespace, or at the lower bound, and passes only whitespace |
| `Text.Strip` | main.py:137 | `strip()` returns an infix of the input, everything cut off on both sides is whitespace, and the result neither starts nor ends with whitespace |
| `Text.StripUnique` | main.py:137 | any infix whose cut-off surroundings are whitespace and whose ends are not whitespace is exactly what `strip()` returns, so that description determines `strip()` completely |
| `Text.StripIgnoresSurroundingSpace` | main.py:137 | adding whitespace before or after a text does not change what `strip()` returns |
| `Text.StartsWith` | main.py:115 | `data.startswith(prefix)`: the prefix is no longer than the text and equals its start |
| `Text.IndexOf` | main.py:116 | the index found is the first occurrence of the separator at or after the start, or the end of the text when there is none |
| `Text.TakeUntil` | main.py:116 | the result is the prefix up to the first separator and holds no separator; if it is shorter than the input, the separator follows it |
| `Text.Split` | main.py:116 | `split(sep)` gives at least one piece; no piece holds the separator; the first piece is the text before the first separator; there is a single piece exactly when the separator does not occur |
| `Text.Join` | main.py:116 | `sep.join(parts)`: the pieces with one separator between each two neighbours |
| `Text.SplitCons` | main.py:116 | a text holding the separator splits into the text before its first separator followed by the pieces of the rest, and is that text, the separator and the rest put together |
| `Text.JoinCons` | main.py:116 | joining a head piece and at least one more piece puts the separator between the head and the join of the rest |
| `Text.JoinSplit` | main.py:116 | `sep.join(s.split(sep)) == s` |
| `Text.SplitJoin` | main.py:116 | splitting the join of separator-free pieces gives back those pieces |
| `Text.TakeUntilNoSep` | main.py:116 | a separator-free prefix followed by the separator is exactly what the text before the first separator is |
| `Text.SecondPiece` | main.py:115-116 | for data starting with `lang_`, `split('_')` has at least two pieces and piece 1 is the text between the first underscore and the next one or the end |
| `Subscription.Admits` | main.py:74-78 | a channel lets the user through only when the lookup did not raise and the status is neither `left` nor `kicked`; an error fails closed |
| `Subscription.Subscribed` | main.py:71-79 | the gate's verdict: every configured channel, stripped, admits the user |
| `Subscription.CheckSubscription` | main.py:71-79 | the result is true exactly when every channel's lookup succeeded with a status other than `left` or `kicked`, so it is true for no channels; the channels asked are a prefix of the list, all answered acceptably except, on failure, the last one, which failed; no channel after the first failure is asked |
| `Subscription.HasInviteLink` | main.py:87-88 | `if chat.username:` — the chat was found and its username is set and non-empty |
| `Subscription.InviteButton` | main.py:89 | the button opens `https://t.me/<username>` with the localized `subscribe_button` caption |
| `Subscription.InviteButtons` | main.py:84-91 | never more buttons than channels |
| `Subscription.InviteButtonsAppend` | main.py:85-91 | the buttons of two channel lists in sequence are the buttons of the first followed by those of the second, so channel order is kept |
| `Subscription.InviteButtonsSingle` | main.py:86-91 | one channel yields its `https://t.me/<username>` button when its chat was found with a non-empty username, and nothing otherwise |
| `Subscription.InviteButtonsAllResolve` | main.py:85-91 | when every channel has a username there is exactly one button per channel, in channel order |
| `Subscription.InviteButtonsNoneResolve` | main.py:85-91 | when no channel can be resolved to a username the prompt has no buttons |
| `Subscription.BuildSubscriptionPrompt` | main.py:81-92 | the prompt is always sent, with the localized `subscribe_first` text and exactly the invite buttons of the channels that resolve to a username |
| `Handlers.VideoPath` | main.py:138 | the file probed for a code is `static/videos/<code>.mp4` |
| `Handlers.VideoPathRoundTrip` | main.py:138 | the code can be read back from the path string built for it, so distinct codes give distinct path strings |
| `Handlers.Decide` | main.py:133-145 | an unsubscribed user gets the subscription prompt and nothing else; a subscribed user gets the video at `static/videos/<text.strip()>.mp4` exactly when `static/videos/<text.strip()>.mp4` exists and the not-found text exactly when it does not, never both |
| `Handlers.DecideIgnoresSurroundingSpace` | main.py:137-139 | whitespace typed around a code does not change the answer |
| `Handlers.HandleCode` | main.py:128-145 | the outcome follows the gate's verdict and the stripped code; a user failing the gate causes no file probe and gets only the prompt; a video is preceded by the `upload_video` action and followed by one of the jokes; otherwise the not-found text in the user's language is sent |
| `Handlers.NamedDataNotLangPrefixed` | main.py:105-125 | none of `start`, `language`, `help`, `admin`, `code` starts with `lang_`, so at most one branch can match any data |
| `Handlers.Route` | main.py:105-126 | the language branch is taken exactly for data starting with `lang_` and stores the text between the first underscore and the next one; data that is neither a named callback nor `lang_`-prefixed does nothing |
| `Handlers.MainKeyboardRoutes` | main.py:60-68 | every button of the main keyboard leads to a named branch |
| `Handlers.LanguageMenuEntry` | main.py:115-116 | `lang_` followed by any tag without an underscore sets exactly that tag |
| `Handlers.LanguageMenuRoutes` | main.py:109-113 | the language menu buttons set `uz`, `ru` and `en` |
| `Handlers.Replies` | main.py:105-126 | every callback sends at most one message, and sends none exactly for unrecognised data |
| `Handlers.HandleCallback` | main.py:101-126 | replies are computed from the language read before the branch; a `lang_` callback writes back the old map (or `{}`) with this user's key set to the parsed tag, so the file now exists, every other key keeps its entry, this user reads the new tag and every other user's tag alone; every other callback leaves the store untouched |

## Left out

- The Flask liveness server, its thread and `bot.polling()`: these are process plumbing and concurrency, not decisions.
- The Bot API calls themselves (`get_chat_member`, `get_chat`, `send_message`, `send_video`, `send_chat_action`). Lookups are parameters, and sends are returned as `Action` values. Failures of the send calls themselves are not modelled.
- Reading and writing `users.json` and `langs/<code>.json`. The store is an in-memory value, and `load_language` is a parameter returning opaque texts. A language file that does not exist, for example after a `lang_` callback with a tag that has no file, raises in the source; the model treats every tag as loadable.
- `load_language`, `main_keyboard` and the menu layouts: button captions and row layout are not modelled. Only the callback data of the buttons, the admin URL and the language of the main keyboard are kept.
- Handlers.HandleCode: `random.choice(jokes)` is nondeterministic. The model only states that the joke sent is one of `jokes`.
- The `/start` command handler (`send_start`): it is a preference lookup and one send, with no decision beyond `GetUserLang`.
- Splitting the `CHANNELS` environment variable on commas: the channel list is given as a sequence of strings.
- Subscription.InviteButtons, BotApi.Texts: every language table is assumed to hold every entry the handlers read. In the source a table without `subscribe_button` raises `KeyError` inside the `try` of main.py:86-91, so the bare `except` skips every channel and the prompt has no buttons, whereas `Subscription.InviteButtonsSingle` gives such a channel its button. A table missing any other entry raises `KeyError` and the handler ends without a reply, which the model does not represent.
- Preferences.PreferenceStore: `users.json` is assumed to decode to an object of strings. Malformed JSON raises at main.py:42 or main.py:50. A JSON value that is not an object raises at main.py:45 or main.py:53. A non-string value under the user's key is returned by `get_user_lang` unchanged and then fails in `load_language` (main.py:36). The model has no such state.
- Concurrent calls to `set_user_lang` from several handlers: each call is modelled as atomic.
