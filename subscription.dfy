/**
  The subscription gate (`check_subscription`) and the prompt shown to users who
  fail it (`send_subscription_prompt`). Both walk the configured channel list;
  each channel name is stripped of surrounding whitespace before it is looked up.
 */
module Subscription {

  import opened Text
  import opened BotApi

  /** A lookup lets the user through when it did not fail and the status is neither `left` nor `kicked`. */
  predicate Admits(r: MemberLookup) {
    r.Status? && r.status != "left" && r.status != "kicked"
  }

  /** The channel names as the gate looks them up: each configured entry stripped of surrounding whitespace. */
  function StripAll(channels: seq<string>): seq<string> {
    seq(|channels|, i requires 0 <= i < |channels| => Strip(channels[i]))
  }

  /** Every one of these channel names admits the user. */
  predicate AllAdmit(names: seq<string>, userId: int, getChatMember: (string, int) -> MemberLookup) {
    forall k :: 0 <= k < |names| ==> Admits(getChatMember(names[k], userId))
  }

  /** The gate's verdict: every configured channel admits the user. */
  predicate Subscribed(channels: seq<string>, userId: int, getChatMember: (string, int) -> MemberLookup) {
    AllAdmit(StripAll(channels), userId, getChatMember)
  }

  /**
    `check_subscription`: asks about the channels in order and stops at the first
    one that fails, whether by an error or by a `left`/`kicked` status. `queried`
    lists the channel names actually looked up, in order: a prefix of the
    stripped channel list, every name but the last admitting the user.
   */
  method CheckSubscription(channels: seq<string>, userId: int, getChatMember: (string, int) -> MemberLookup)
    returns (subscribed: bool, queried: seq<string>)
    ensures subscribed <==> Subscribed(channels, userId, getChatMember)
    ensures |channels| == 0 ==> subscribed
    ensures |queried| <= |channels| && queried == StripAll(channels)[..|queried|]
    ensures subscribed ==> |queried| == |channels|
    ensures !subscribed ==> |queried| >= 1 && !Admits(getChatMember(queried[|queried| - 1], userId))
    ensures !subscribed ==> AllAdmit(queried[..|queried| - 1], userId, getChatMember)
  {
    ghost var names := StripAll(channels);
    queried := [];
    for i := 0 to |channels|
      invariant queried == names[..i]
      invariant AllAdmit(queried, userId, getChatMember)
    {
      var channel := Strip(channels[i]);
      assert channel == names[i];
      var member := getChatMember(channel, userId);
      queried := queried + [channel];
      match member
      case Error =>
        return false, queried;
      case Status(status) =>
        if status == "left" || status == "kicked" {
          return false, queried;
        }
    }
    assert names[..|channels|] == names;
    subscribed := true;
  }

  /** `if chat.username:` — the chat was found and has a non-empty public username. */
  predicate HasInviteLink(r: ChatLookup) {
    r.Chat? && r.username.Some? && r.username.value != ""
  }

  /** The invite button for one chat that has a username. */
  function InviteButton(r: ChatLookup, caption: string): Button
    requires HasInviteLink(r)
  {
    Button(caption, "https://t.me/" + r.username.value)
  }

  /** The invite buttons for a channel list: one per channel with a username, in channel order. */
  function InviteButtons(channels: seq<string>, getChat: string -> ChatLookup, caption: string): (buttons: seq<Button>)
    ensures |buttons| <= |channels|
    decreases |channels|
  {
    if |channels| == 0 then []
    else
      var earlier := InviteButtons(channels[..|channels| - 1], getChat, caption);
      var chat := getChat(Strip(channels[|channels| - 1]));
      if HasInviteLink(chat) then earlier + [InviteButton(chat, caption)] else earlier
  }

  /** The buttons for a concatenation of channel lists are the buttons of each list, one after the other. */
  lemma {:induction false} InviteButtonsAppend(a: seq<string>, b: seq<string>, getChat: string -> ChatLookup, caption: string)
    ensures InviteButtons(a + b, getChat, caption) == InviteButtons(a, getChat, caption) + InviteButtons(b, getChat, caption)
    decreases |b|
  {
    if |b| == 0 {
      assert a + b == a;
    } else {
      var b' := b[..|b| - 1];
      assert (a + b)[..|a + b| - 1] == a + b';
      assert (a + b)[|a + b| - 1] == b[|b| - 1];
      InviteButtonsAppend(a, b', getChat, caption);
    }
  }

  /** A channel whose chat has a username gives exactly its invite button; any other channel gives none. */
  lemma InviteButtonsSingle(channel: string, getChat: string -> ChatLookup, caption: string)
    ensures var chat := getChat(Strip(channel));
      InviteButtons([channel], getChat, caption) == if HasInviteLink(chat) then [InviteButton(chat, caption)] else []
  {
    assert [channel][..0] == [];
  }

  /** When every channel resolves to a chat with a username, there is one button per channel, in order. */
  lemma {:induction false} InviteButtonsAllResolve(channels: seq<string>, getChat: string -> ChatLookup, caption: string)
    requires forall i :: 0 <= i < |channels| ==> HasInviteLink(getChat(Strip(channels[i])))
    ensures var buttons := InviteButtons(channels, getChat, caption);
      |buttons| == |channels| &&
      forall i :: 0 <= i < |channels| ==> buttons[i] == InviteButton(getChat(Strip(channels[i])), caption)
    decreases |channels|
  {
    if |channels| > 0 {
      var init := channels[..|channels| - 1];
      InviteButtonsAllResolve(init, getChat, caption);
    }
  }

  /** When no channel resolves to a chat with a username, the prompt carries no button. */
  lemma {:induction false} InviteButtonsNoneResolve(channels: seq<string>, getChat: string -> ChatLookup, caption: string)
    requires forall i :: 0 <= i < |channels| ==> !HasInviteLink(getChat(Strip(channels[i])))
    ensures InviteButtons(channels, getChat, caption) == []
    decreases |channels|
  {
    if |channels| > 0 {
      InviteButtonsNoneResolve(channels[..|channels| - 1], getChat, caption);
    }
  }

  /**
    `send_subscription_prompt`: looks up every channel, keeps an invite button for
    each one that has a username, skips the rest, and always sends the prompt.
   */
  method BuildSubscriptionPrompt(chatId: int, channels: seq<string>, getChat: string -> ChatLookup, texts: Texts)
    returns (prompt: Action)
    ensures prompt == Message(chatId, texts.subscribeFirst, UrlButtons(InviteButtons(channels, getChat, texts.subscribeButton)))
  {
    var buttons: seq<Button> := [];
    for i := 0 to |channels|
      invariant buttons == InviteButtons(channels[..i], getChat, texts.subscribeButton)
    {
      assert channels[..i + 1][..i] == channels[..i];
      var chat := getChat(Strip(channels[i]));
      match chat
      case ChatError =>
        continue;
      case Chat(username) =>
        if username.Some? && username.value != "" {
          buttons := buttons + [Button(texts.subscribeButton, "https://t.me/" + username.value)];
        }
    }
    assert channels[..|channels|] == channels;
    prompt := Message(chatId, texts.subscribeFirst, UrlButtons(buttons));
  }
}
