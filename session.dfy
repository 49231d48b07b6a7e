/** The chat-session state machine of the desktop client's `Api` object.

    The object holds the chat history (a list of chats, each a timestamp and
    a list of turns), the chat currently receiving turns (a reference to one
    list of turns, or None) and one busy flag per generation lane. The page
    calls `generate_text`, `generate_image`, `save_chat`, `load_chat` and
    `get_history` on it.

    Python lists are mutable objects, and `current_chat` is a reference to
    one of them, not a copy: a list of turns is therefore a `Transcript`
    object here, and appending to the current chat changes whatever chat
    record shares that list. The AI provider is a parameter (a function from
    model and prompt to an outcome), the clock is a parameter (`now`), and
    writing the history file is a snapshot of the history into `saved`. */
module ChatSession {
  import opened Wrappers
  import opened Trim

  /** One message of a chat, persisted as a one-key record. */
  datatype Turn = User(text: string) | Ai(text: string) | Image(url: string)

  /** A chat as the history file and `get_history` show it: values only. */
  datatype ChatRecord = ChatRecord(timestamp: real, messages: seq<Turn>)

  /** The two generation lanes, each with its own busy flag. */
  datatype Lane = TextLane | ImageLane

  /** What the provider call does: return some text (the completion, or the
      URL of the image) or raise an exception with the given message. */
  datatype Outcome = Success(text: string) | Failure(message: string)

  /** The history file at start-up: absent, present but not readable as
      JSON, or holding chats. */
  datatype StoredHistory = Missing | Unreadable | Parsed(chats: seq<ChatRecord>)

  /** The answer to a generation request while one is already running. */
  const InProgress: string := "Generation in progress..."

  /** A Python list of turns. Its identity matters: the chat in the history
      and `current_chat` may be the same list. */
  class Transcript {
    var turns: seq<Turn>

    constructor(turns: seq<Turn>)
      ensures this.turns == turns
    {
      this.turns := turns;
    }
  }

  /** A chat of the in-memory history: its creation time and its list. */
  datatype Chat = Chat(timestamp: real, messages: Transcript)

  /** `load_history`: a missing or unreadable file gives an empty history. */
  function LoadHistory(stored: StoredHistory): (h: seq<ChatRecord>)
    ensures stored.Parsed? ==> h == stored.chats
    ensures !stored.Parsed? ==> h == []
  {
    if stored.Parsed? then stored.chats else []
  }

  /** The turn a successful call of a lane appends: never a user turn, an
      `ai` turn for the text lane and an `image` turn for the image lane,
      holding the text. */
  function Answer(lane: Lane, text: string): (t: Turn)
    ensures !t.User? && (t.Ai? <==> lane == TextLane)
    ensures t.Ai? ==> t.text == text
    ensures t.Image? ==> t.url == text
  {
    match lane
    case TextLane => Ai(text)
    case ImageLane => Image(text)
  }

  function ListsOf(chats: seq<Chat>): set<Transcript> {
    set i | 0 <= i < |chats| :: chats[i].messages
  }

  /** The chats as values, read out of their lists. */
  function Records(chats: seq<Chat>): (v: seq<ChatRecord>)
    reads ListsOf(chats)
    ensures |v| == |chats|
    ensures forall i :: 0 <= i < |v| ==> v[i] == ChatRecord(chats[i].timestamp, chats[i].messages.turns)
  {
    seq(|chats|, i reads ListsOf(chats) requires 0 <= i < |chats| =>
      ChatRecord(chats[i].timestamp, chats[i].messages.turns))
  }

  /** The dictionary of busy flags, one per lane, updated in place. */
  class LoadingStates {
    var busy: map<Lane, bool>

    constructor()
      ensures busy == map[TextLane := false, ImageLane := false]
    {
      busy := map[TextLane := false, ImageLane := false];
    }
  }

  class Api {
    var chatHistory: seq<Chat>
    var currentChat: Transcript?
    const loadingStates: LoadingStates
    /** The last history written to the file, None before the first write. */
    var saved: Option<seq<ChatRecord>>

    /** Both lanes have a flag, and no two chats share one list of turns. */
    ghost predicate Valid()
      reads this, loadingStates
    {
      && TextLane in loadingStates.busy && ImageLane in loadingStates.busy
      && forall i, j :: 0 <= i < j < |chatHistory| ==> chatHistory[i].messages != chatHistory[j].messages
    }

    /** The lists of turns that belong to the history. */
    function Lists(): set<Transcript>
      reads this`chatHistory
    {
      ListsOf(chatHistory)
    }

    /** The history as a value: what `get_history` serialises and what a
        save writes. */
    function View(): (v: seq<ChatRecord>)
      reads this`chatHistory, Lists()
      ensures |v| == |chatHistory|
      ensures forall i :: 0 <= i < |v| ==> v[i] == ChatRecord(chatHistory[i].timestamp, chatHistory[i].messages.turns)
    {
      Records(chatHistory)
    }

    /** The current chat is one of the history's lists, so that what is
        appended to it is part of the history. */
    predicate Attached()
      reads this
    {
      currentChat != null && currentChat in Lists()
    }

    /** `__init__`: the history is what `load_history` returns, no chat is
        current and neither lane is busy. Each stored chat gets a list of
        its own, as `json.load` builds one. */
    constructor(stored: StoredHistory)
      ensures Valid()
      ensures View() == LoadHistory(stored)
      ensures currentChat == null && saved == None
      ensures fresh(loadingStates) && loadingStates.busy == map[TextLane := false, ImageLane := false]
      ensures forall t :: t in Lists() ==> fresh(t)
    {
      var records := LoadHistory(stored);
      var chats: seq<Chat> := [];
      var i := 0;
      while i < |records|
        invariant 0 <= i <= |records| && |chats| == i
        invariant forall j :: 0 <= j < i ==> fresh(chats[j].messages)
        invariant forall j :: 0 <= j < i ==>
          chats[j].timestamp == records[j].timestamp && chats[j].messages.turns == records[j].messages
        invariant forall j, k :: 0 <= j < k < i ==> chats[j].messages != chats[k].messages
      {
        var t := new Transcript(records[i].messages);
        chats := chats + [Chat(records[i].timestamp, t)];
        i := i + 1;
      }
      chatHistory := chats;
      currentChat := null;
      loadingStates := new LoadingStates();
      saved := None;
    }

    /** `save_history_to_file`: the file now holds the whole history. */
    method SaveHistoryToFile()
      modifies this`saved
      ensures saved == Some(View())
    {
      var v := View();
      saved := Some(v);
      assert View() == v;
    }

    /** `get_history`: the whole history, as values. */
    method GetHistory() returns (h: seq<ChatRecord>)
      ensures |h| == |chatHistory|
      ensures forall i :: 0 <= i < |h| ==> h[i].timestamp == chatHistory[i].timestamp && h[i].messages == chatHistory[i].messages.turns
    {
      h := View();
    }

    /** What one call of `generate_text` (lane TextLane) or `generate_image`
        (lane ImageLane) does, given `now` as the clock and `reply` as the
        provider's outcome:
        - if the lane is busy, it answers InProgress and changes nothing;
        - otherwise, with no current chat, it appends exactly one new chat,
          stamped `now`, whose list becomes the current chat; with one, the
          history keeps its chats;
        - the current chat gets the user's prompt and, on success only, the
          stripped answer; the answer is returned, or "Error: " and the
          exception's message;
        - the history is saved on success only;
        - both flags end as they began (the lane's flag was clear);
        - no chat of the history changes except the one whose list is the
          current chat. */
    twostate predicate Generated(lane: Lane, prompt: string, now: real, reply: Outcome, r: string)
      reads this, Lists(), currentChat, loadingStates
    {
      if old(lane in loadingStates.busy && loadingStates.busy[lane]) then Rejected(r)
      else Ran(lane, prompt, now, reply, r)
    }

    /** A call on a busy lane. */
    twostate predicate Rejected(r: string)
      reads this, Lists(), currentChat, loadingStates
    {
      && r == InProgress
      && chatHistory == old(chatHistory) && currentChat == old(currentChat)
      && loadingStates.busy == old(loadingStates.busy) && saved == old(saved)
      && (currentChat != null ==> currentChat.turns == old(currentChat.turns))
      && View() == old(View())
    }

    /** A call on a free lane: the flags end as they began. */
    twostate predicate Ran(lane: Lane, prompt: string, now: real, reply: Outcome, r: string)
      reads this, Lists(), currentChat, loadingStates
    {
      loadingStates.busy == old(loadingStates.busy) && Exchanged(lane, prompt, now, reply, r)
    }

    /** The exchange with the provider, inside the busy flag. */
    twostate predicate Exchanged(lane: Lane, prompt: string, now: real, reply: Outcome, r: string)
      reads this, Lists(), currentChat
    {
      && currentChat != null
      && (old(currentChat) == null ==>
            fresh(currentChat) && chatHistory == old(chatHistory) + [Chat(now, currentChat)])
      && (old(currentChat) != null ==>
            currentChat == old(currentChat) && chatHistory == old(chatHistory))
      && currentChat.turns
         == (if old(currentChat) == null then [] else old(currentChat.turns))
            + [User(prompt)]
            + (if reply.Success? then [Answer(lane, PyStrip(reply.text))] else [])
      && r == (if reply.Success? then PyStrip(reply.text) else "Error: " + reply.message)
      && saved == (if reply.Success? then Some(View()) else old(saved))
      && forall i :: 0 <= i < |old(chatHistory)| && chatHistory[i].messages != currentChat ==>
           View()[i] == old(View()[i])
    }

    /** `generate_text(model, prompt)`, with the provider as `complete`. */
    method GenerateText(model: string, prompt: string, now: real, complete: (string, string) -> Outcome)
      returns (r: string)
      requires Valid()
      modifies this, currentChat, loadingStates
      ensures Valid()
      ensures Generated(TextLane, prompt, now, complete(model, prompt), r)
    {
      r := Generate(TextLane, prompt, now, complete(model, prompt));
    }

    /** `generate_image(model, prompt)`, with the provider as `generate`. */
    method GenerateImage(model: string, prompt: string, now: real, generate: (string, string) -> Outcome)
      returns (r: string)
      requires Valid()
      modifies this, currentChat, loadingStates
      ensures Valid()
      ensures Generated(ImageLane, prompt, now, generate(model, prompt), r)
    {
      r := Generate(ImageLane, prompt, now, generate(model, prompt));
    }

    /** The body the two generation methods share: the busy check. */
    method Generate(lane: Lane, prompt: string, now: real, reply: Outcome) returns (r: string)
      requires Valid()
      modifies this, currentChat, loadingStates
      ensures Valid()
      ensures Generated(lane, prompt, now, reply, r)
    {
      if loadingStates.busy[lane] {
        return InProgress;
      }
      r := Run(lane, prompt, now, reply);
    }

    /** `try`/`finally` on a lane that is free: the flag, set by Exchange,
        is released afterwards, on success and on failure alike. */
    method Run(lane: Lane, prompt: string, now: real, reply: Outcome) returns (r: string)
      requires Valid() && !loadingStates.busy[lane]
      modifies this, currentChat, loadingStates
      ensures Valid()
      ensures Ran(lane, prompt, now, reply, r)
    {
      r := Exchange(lane, prompt, now, reply);
      ghost var v := View();
      loadingStates.busy := loadingStates.busy[lane := false];
      assert View() == v;
    }

    /** Setting the lane's flag, then the body of the `try` block. */
    method Exchange(lane: Lane, prompt: string, now: real, reply: Outcome) returns (r: string)
      requires Valid()
      modifies this`chatHistory, this`currentChat, this`saved, currentChat, loadingStates
      ensures Valid()
      ensures loadingStates.busy == old(loadingStates.busy)[lane := true]
      ensures Exchanged(lane, prompt, now, reply, r)
    {
      loadingStates.busy := loadingStates.busy[lane := true];
      assert View() == old(View());
      if currentChat == null {
        NewChat(now);
      }
      AppendTurn(User(prompt));
      r := Receive(lane, reply);
    }

    /** The provider's outcome: on success the stripped answer is appended
        and the history saved; on failure nothing changes and the error is
        returned. */
    method Receive(lane: Lane, reply: Outcome) returns (r: string)
      requires Valid() && currentChat != null
      modifies this`saved, currentChat
      ensures Valid()
      ensures currentChat.turns
        == old(currentChat.turns) + (if reply.Success? then [Answer(lane, PyStrip(reply.text))] else [])
      ensures r == (if reply.Success? then PyStrip(reply.text) else "Error: " + reply.message)
      ensures saved == (if reply.Success? then Some(View()) else old(saved))
      ensures forall i :: 0 <= i < |chatHistory| && chatHistory[i].messages != currentChat ==>
        View()[i] == old(View()[i])
    {
      match reply {
        case Success(text) =>
          var answer := PyStrip(text);
          AppendTurn(Answer(lane, answer));
          SaveHistoryToFile();
          r := answer;
        case Failure(message) =>
          r := "Error: " + message;
      }
    }

    /** What an exchange does to the history as the page sees it. A new
        chat is appended at the end; a current chat that is one of the
        history's lists changes that chat's turns and no other record; a
        current chat that is not, as after `load_chat` of a list from
        elsewhere, leaves the history exactly as it was. */
    twostate lemma HistoryAfterExchange(lane: Lane, prompt: string, now: real, reply: Outcome, r: string)
      requires old(Valid()) && Exchanged(lane, prompt, now, reply, r)
      ensures old(currentChat) == null ==> View() == old(View()) + [ChatRecord(now, currentChat.turns)]
      ensures old(currentChat) != null && !old(Attached()) ==> View() == old(View())
      ensures old(currentChat) != null ==> |View()| == |old(View())| && forall i :: 0 <= i < |View()| ==>
        View()[i] == (if chatHistory[i].messages == currentChat
                      then ChatRecord(old(View()[i]).timestamp, currentChat.turns)
                      else old(View()[i]))
    {
      if old(currentChat) == null {
        assert forall i :: 0 <= i < |old(chatHistory)| ==> chatHistory[i].messages != currentChat;
        assert View() == old(View()) + [ChatRecord(now, currentChat.turns)];
      } else if !old(Attached()) {
        assert forall i :: 0 <= i < |chatHistory| ==> chatHistory[i].messages != currentChat;
        assert View() == old(View());
      }
    }

    /** The lazy start of a chat: a new, empty chat stamped `now` is appended
        to the history and its list becomes the current chat. */
    method NewChat(now: real)
      requires Valid() && currentChat == null
      modifies this`chatHistory, this`currentChat
      ensures Valid()
      ensures currentChat != null && fresh(currentChat) && currentChat.turns == []
      ensures chatHistory == old(chatHistory) + [Chat(now, currentChat)]
      ensures View() == old(View()) + [ChatRecord(now, [])]
    {
      var messages := new Transcript([]);
      chatHistory := chatHistory + [Chat(now, messages)];
      currentChat := messages;
    }

    /** `self.current_chat.append(turn)`: only the current list grows, and
        only the chats holding that list change. */
    method AppendTurn(turn: Turn)
      requires Valid() && currentChat != null
      modifies currentChat
      ensures Valid()
      ensures currentChat.turns == old(currentChat.turns) + [turn]
      ensures forall i :: 0 <= i < |chatHistory| && chatHistory[i].messages != currentChat ==>
        View()[i] == old(View()[i])
    {
      currentChat.turns := currentChat.turns + [turn];
    }

    /** `save_chat`: a current chat with turns is saved and closed; with no
        current chat, or an empty one, nothing happens. The history itself
        is never changed. */
    method SaveChat()
      requires Valid()
      modifies this`currentChat, this`saved
      ensures Valid()
      ensures old(currentChat) != null && old(currentChat.turns) != [] ==>
        currentChat == null && saved == Some(View())
      ensures !(old(currentChat) != null && old(currentChat.turns) != []) ==>
        currentChat == old(currentChat) && saved == old(saved)
    {
      if currentChat != null && currentChat.turns != [] {
        SaveHistoryToFile();
        ghost var v := View();
        currentChat := null;
        assert View() == v;
      }
    }

    /** `load_chat` as the page evidently means it: given the position of a
        chat in the history, that chat's own list becomes current, so the
        turns that follow are added to that chat. A position outside the
        history, or a chat with no turns, leaves no current chat. */
    method LoadChatFromHistory(index: int)
      requires Valid()
      modifies this`currentChat, this`saved
      ensures Valid()
      ensures 0 <= index < |chatHistory| && chatHistory[index].messages.turns != [] ==>
        currentChat == chatHistory[index].messages && Attached() && saved == Some(View())
      ensures !(0 <= index < |chatHistory| && chatHistory[index].messages.turns != []) ==>
        currentChat == null && saved == old(saved)
    {
      if 0 <= index < |chatHistory| && chatHistory[index].messages.turns != [] {
        LoadChat(chatHistory[index].messages);
      } else {
        currentChat := null;
      }
    }

    /** `load_chat(messages)`: a non-empty list becomes the current chat, as
        given, and the history is saved; None or an empty list leaves no
        current chat. The list is not looked up in the history: appends to
        it reach the history only if it is one of the history's lists. */
    method LoadChat(messages: Transcript?)
      requires Valid()
      modifies this`currentChat, this`saved
      ensures Valid()
      ensures messages != null && messages.turns != [] ==>
        currentChat == messages && saved == Some(View())
      ensures !(messages != null && messages.turns != []) ==>
        currentChat == null && saved == old(saved)
    {
      if messages != null && messages.turns != [] {
        currentChat := messages;
        SaveHistoryToFile();
      } else {
        currentChat := null;
      }
    }
  }
}
