/** What happens to the `Api` object in the situations the page puts it in,
    with the AI provider replaced by a fixed outcome. Each method builds a
    fresh object and states what the page would see afterwards. */
module SessionScenarios {
  import opened Wrappers
  import opened Trim
  import opened ChatSession

  /** A provider that always answers `answer`. */
  function Answers(answer: string): (string, string) -> Outcome {
    (model: string, prompt: string) => Success(answer)
  }

  /** A provider that always raises with `message`. */
  function Raises(message: string): (string, string) -> Outcome {
    (model: string, prompt: string) => Failure(message)
  }

  /** First message on an empty history: one chat holding the prompt and the
      answer, and the history is saved with it. */
  method FirstMessage() returns (r: string, h: seq<ChatRecord>)
    ensures r == "hi there"
    ensures h == [ChatRecord(1.0, [User("hello"), Ai("hi there")])]
  {
    var api := new Api(Missing);
    TrimKeepsInnerText("hi there", IsPyWhitespace);
    r := api.GenerateText("model-a", "hello", 1.0, Answers("hi there"));
    assert api.chatHistory == [Chat(1.0, api.currentChat)];
    assert api.currentChat.turns == [User("hello"), Ai("hi there")];
    h := api.GetHistory();
  }

  /** A failing image request: an error string, the prompt stays in the new
      chat without an image, and nothing is written. */
  method FailedImage() returns (r: string, h: seq<ChatRecord>, saved: Option<seq<ChatRecord>>)
    ensures r == "Error: quota"
    ensures h == [ChatRecord(1.0, [User("a cat")])]
    ensures saved == None
  {
    var api := new Api(Missing);
    r := api.GenerateImage("flux", "a cat", 1.0, Raises("quota"));
    assert api.chatHistory == [Chat(1.0, api.currentChat)];
    assert api.currentChat.turns == [User("a cat")];
    h := api.GetHistory();
    saved := api.saved;
  }

  /** A request while the lane is busy, as when the page calls again before
      the first call has returned: rejected, and nothing changes. The other
      lane is still free. */
  method BusyLane() returns (r: string, image: string, h: seq<ChatRecord>)
    ensures r == InProgress
    ensures image == "u"
    ensures h == [ChatRecord(1.0, [User("p"), Image("u")])]
  {
    var api := new Api(Missing);
    api.loadingStates.busy := api.loadingStates.busy[TextLane := true];
    r := api.GenerateText("model-a", "hello", 1.0, Answers("hi there"));
    TrimKeepsInnerText("u", IsPyWhitespace);
    image := api.GenerateImage("flux", "p", 1.0, Answers("u"));
    assert api.chatHistory == [Chat(1.0, api.currentChat)];
    assert api.currentChat.turns == [User("p"), Image("u")];
    h := api.GetHistory();
  }

  /** `save_chat` closes the chat; the next message starts a second one,
      and the first chat keeps its turns. */
  method SaveThenNewChat() returns (h: seq<ChatRecord>)
    ensures h == [ChatRecord(1.0, [User("a"), Ai("b")]), ChatRecord(2.0, [User("c"), Ai("d")])]
  {
    var api, first := SavedChat();
    TrimKeepsInnerText("d", IsPyWhitespace);
    var r := api.GenerateText("m", "c", 2.0, Answers("d"));
    assert api.chatHistory == [Chat(1.0, first), Chat(2.0, api.currentChat)];
    assert first.turns == [User("a"), Ai("b")];
    assert api.currentChat.turns == [User("c"), Ai("d")];
    h := api.GetHistory();
  }

  /** One exchange on an empty history, then `save_chat`. */
  method SavedChat() returns (api: Api, first: Transcript)
    ensures fresh(api) && fresh(api.loadingStates) && api.Valid()
    ensures api.currentChat == null && !api.loadingStates.busy[TextLane]
    ensures api.chatHistory == [Chat(1.0, first)] && first.turns == [User("a"), Ai("b")]
    ensures api.saved == Some([ChatRecord(1.0, [User("a"), Ai("b")])])
  {
    api := new Api(Missing);
    TrimKeepsInnerText("b", IsPyWhitespace);
    var r := api.GenerateText("m", "a", 1.0, Answers("b"));
    first := api.currentChat;
    assert api.chatHistory == [Chat(1.0, first)] && first.turns == [User("a"), Ai("b")];
    api.SaveChat();
    assert api.View() == [ChatRecord(1.0, [User("a"), Ai("b")])];
  }

  /** Resuming a stored chat from the page: the page hands back a copy of
      chat k's list, so the exchange that follows grows that copy while the
      history keeps every chat as it was, and the file is written with the
      history unchanged. */
  method ResumeFromPage(chats: seq<ChatRecord>, k: nat, prompt: string, answer: string, now: real)
    returns (r: string, h: seq<ChatRecord>, saved: Option<seq<ChatRecord>>, resumed: seq<Turn>)
    requires k < |chats| && chats[k].messages != []
    ensures r == PyStrip(answer)
    ensures h == chats
    ensures saved == Some(chats)
    ensures resumed == chats[k].messages + [User(prompt), Ai(PyStrip(answer))]
  {
    var api, copy := LoadCopy(chats, k);
    r := api.GenerateText("model-a", prompt, now, Answers(answer));
    assert forall i :: 0 <= i < |api.chatHistory| ==> api.chatHistory[i].messages != api.currentChat;
    assert api.View() == chats;
    h := api.GetHistory();
    saved := api.saved;
    resumed := copy.turns;
  }

  /** Start-up on `chats`, then `load_chat` of a copy of chat k's list, as
      the page sends it. */
  method LoadCopy(chats: seq<ChatRecord>, k: nat) returns (api: Api, copy: Transcript)
    requires k < |chats| && chats[k].messages != []
    ensures fresh(api) && fresh(api.loadingStates) && api.Valid() && !api.loadingStates.busy[TextLane]
    ensures api.View() == chats && api.saved == Some(chats)
    ensures fresh(copy) && api.currentChat == copy && copy !in api.Lists() && copy.turns == chats[k].messages
  {
    api := new Api(Parsed(chats));
    var shown := api.GetHistory();
    copy := new Transcript(shown[k].messages);
    api.LoadChat(copy);
    assert api.View() == chats;
  }

  /** Resuming chat k through its own list in the history, as
      LoadChatFromHistory does: the exchange that follows is added to chat k,
      every other chat stays as it was, and the file holds the grown
      history. */
  method ResumeFromHistory(chats: seq<ChatRecord>, k: nat, prompt: string, answer: string, now: real)
    returns (r: string, h: seq<ChatRecord>, saved: Option<seq<ChatRecord>>)
    requires k < |chats| && chats[k].messages != []
    ensures r == PyStrip(answer)
    ensures h == chats[k := ChatRecord(chats[k].timestamp, chats[k].messages + [User(prompt), Ai(PyStrip(answer))])]
    ensures saved == Some(h)
  {
    var api := LoadOwn(chats, k);
    r := api.GenerateText("model-a", prompt, now, Answers(answer));
    assert api.currentChat == api.chatHistory[k].messages;
    assert api.currentChat.turns == chats[k].messages + [User(prompt), Ai(PyStrip(answer))];
    OnlyChatChanged(chats, api.View(), k, api.currentChat.turns);
    h := api.GetHistory();
    saved := api.saved;
  }

  /** A history of the same length that differs from `chats` only in chat
      k's turns is `chats` with chat k replaced. */
  lemma OnlyChatChanged(chats: seq<ChatRecord>, v: seq<ChatRecord>, k: nat, turns: seq<Turn>)
    requires k < |chats| == |v|
    requires v[k] == ChatRecord(chats[k].timestamp, turns)
    requires forall i :: 0 <= i < |v| && i != k ==> v[i] == chats[i]
    ensures v == chats[k := ChatRecord(chats[k].timestamp, turns)]
  {
  }

  /** Start-up on `chats`, then LoadChatFromHistory(k). */
  method LoadOwn(chats: seq<ChatRecord>, k: nat) returns (api: Api)
    requires k < |chats| && chats[k].messages != []
    ensures fresh(api) && fresh(api.loadingStates) && api.Valid() && !api.loadingStates.busy[TextLane]
    ensures api.View() == chats && api.saved == Some(chats)
    ensures api.currentChat != null && fresh(api.currentChat) && api.currentChat == api.chatHistory[k].messages
  {
    api := new Api(Parsed(chats));
    api.LoadChatFromHistory(k);
    assert api.View() == chats;
  }

  /** `save_history_to_file` followed by a fresh start-up on the file it
      wrote: the reloaded history is the saved one, chat for chat. */
  method SaveThenReload(api: Api) returns (reloaded: Api)
    requires api.Valid()
    modifies api`saved
    ensures api.saved == Some(api.View())
    ensures reloaded.Valid() && reloaded.View() == api.View() && reloaded.currentChat == null
  {
    api.SaveHistoryToFile();
    ghost var v := api.View();
    reloaded := new Api(Parsed(api.saved.value));
    assert api.View() == v;
  }
}
