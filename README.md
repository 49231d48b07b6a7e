# SnarkyAI: the chat session and the inline-code splitter

SnarkyAI is a desktop chat client: a Python `Api` object behind a pywebview
page. This project models two parts of it in Dafny and proves properties of
them.

1. **The chat-session state machine of `Api`** (`session.dfy`, module
   `ChatSession`). The object holds three things:
   - the chat history, a list of chats, each a timestamp and a list of turns;
   - `current_chat`, which is None or a *reference* to one list of turns;
   - one busy flag per lane (`text`, `image`).

   `generate_text` and `generate_image` each follow the same rules:
   - reject with "Generation in progress..." when their lane is busy;
   - otherwise set the flag and create a chat lazily;
   - append the prompt, then ask the AI provider;
   - on success, append the stripped answer and save;
   - always release the flag.

   `save_chat` closes the current chat. `load_chat` makes a given list
   current. `get_history` returns the history.

   Python lists are shared objects. So a list of turns is a `Transcript`
   object, and the history is a sequence of `Chat(timestamp, Transcript)`.
   `View()` reads the history out as values (`ChatRecord`s), which is what
   `get_history` returns and what a save writes.

   A few things outside the object are replaced by stand-ins:
   - the provider is a function parameter;
   - the clock is a `now` parameter;
   - writing the file is a snapshot of `View()` into the field `saved`;
   - the file read at start-up is a `StoredHistory` value.

2. **The inline-code splitter of the page's `addAIMessage`** (`fragmenter.dfy`,
   module `Fragmenter`). This is the JavaScript loop over
   `` /`([^`]+)`/g.exec(text) `` that cuts an AI answer into text nodes and
   code boxes, dropping text that is whitespace only.
   - `FindMatch` is one `exec` call.
   - `ScanFrom` cuts the text into all its pieces.
   - `Visible` drops the blank ones.
   - `AddAIMessage` is the page's own `while` loop, proved to produce
     `Fragments(text)`.

   Properties proved about the pieces:
   - they rebuild the input exactly;
   - code boxes are non-empty and hold no backtick;
   - text nodes are never blank and never hold an unboxed code span;
   - `exec` always returns the leftmost match.

`trim.dfy` (module `Trim`) defines trimming once over a whitespace predicate.
It is used with Python's `str.isspace` for `.strip()` and with
ECMAScript's WhiteSpace and LineTerminator set for `trim()`.
`scenarios.dfy` and `fragment_examples.dfy` state what happens in the
situations the program is used in, for all inputs of each shape.

**Resuming a chat.** `load_chat` does not look its argument up in
`chat_history` (`SnarkyAI.py:140-148`). The page sends `chat.messages` of a
chat it got by `JSON.parse` of `get_history()` (`SnarkyAI.py:855`,
`SnarkyAI.py:885`), and pywebview hands a JavaScript argument to Python as
a newly built list. So turns added after resuming a chat from the page
never reach `chat_history` or the file. The model keeps both cases apart:
- `HistoryAfterExchange` states what an exchange does to the history when
  the current list belongs to it and when it does not;
- `ResumeFromPage` shows the program as written: the copy grows and the
  history stays as it was;
- `LoadChatFromHistory` and `ResumeFromHistory` show the evidently intended
  behaviour: the resumed chat grows in the history and is saved.

## Model

| member | source | states |
|---|---|---|
| `Trim.Trim` | SnarkyAI.py:78 | The trimmed text is empty exactly when the input is all whitespace. Otherwise it neither starts nor ends with whitespace. It is never longer than the input. |
| `Trim.TrimIsSlice` | SnarkyAI.py:78 | Trimming only removes whitespace at the two ends. The result is a contiguous slice of the input with only whitespace on either side. |
| `Trim.TrimIdempotent` | SnarkyAI.py:114 | Trimming a trimmed text changes nothing. |
| `Trim.TrimKeepsInnerText` | SnarkyAI.py:780 | Text that has no whitespace at either end is left exactly as it is. |
| `Trim.PyStrip` | SnarkyAI.py:78 | Python's `.strip()`, as applied to the answer and the image URL: empty exactly when the text is all Python whitespace, and otherwise free of it at both ends. |
| `Trim.JsTrim` | SnarkyAI.py:780 | JavaScript's `trim()`, as applied to the gaps: empty exactly when the text is all ECMAScript whitespace, and otherwise free of it at both ends. |
| `Trim.StripAndTrimDiffer` | SnarkyAI.py:807 | The two whitespace sets differ: Python strips U+001C and U+0085, which JavaScript keeps, and JavaScript trims U+FEFF, which Python keeps. |
| `Fragmenter.NextBacktick` | SnarkyAI.py:772 | The greedy `[^`]+` scan reaches the first backtick at or after a position, or the end of the text. No backtick lies before it. |
| `Fragmenter.MatchEndIsNextBacktick` | SnarkyAI.py:772 | Every match that starts at k ends just after the first backtick after k. |
| `Fragmenter.FindMatch` | SnarkyAI.py:777 | A match that `exec` returns starts at or after `lastIndex`. It is a backtick, one or more non-backticks, then a backtick. |
| `Fragmenter.FindMatchLeftmost` | SnarkyAI.py:777 | `exec` returns the leftmost match: no match starts between `lastIndex` and it. When it returns null, no match starts at or after `lastIndex`. |
| `Fragmenter.ScanFrom` | SnarkyAI.py:777-810 | The repeated `exec` calls from `lastIndex` cut the rest of the text into gaps and matches. The list of pieces is empty exactly when nothing is left; ScanFromRebuilds and ScanFromWellFormed state what the pieces are. |
| `Fragmenter.Shown` | SnarkyAI.py:780 | A fragment is kept when it is a code box, or text that is not whitespace only, which is what a non-empty `trim()` means. |
| `Fragmenter.VisibleMembers` | SnarkyAI.py:780-782 | Visible keeps exactly the pieces that are code or whose `trim()` is not empty. Each kept fragment is one of the pieces. |
| `Fragmenter.Fragments` | SnarkyAI.py:772-810 | The fragments of an answer are exactly the pieces of its scan that are code, or text that is not whitespace only. |
| `Fragmenter.VisibleScanMatch` | SnarkyAI.py:778-802 | One turn of the loop: a non-blank gap before the match if there is one, then the match's content as code, then whatever follows `lastIndex`. |
| `Fragmenter.VisibleScanRest` | SnarkyAI.py:805-810 | After the last match, the rest of the text is shown when it is non-empty and not blank, and nothing is shown otherwise. |
| `Fragmenter.AddAIMessage` | SnarkyAI.py:772-810 | The loop produces `Fragments(text)`. The contents the Copy buttons are meant to copy are the code boxes' contents, in order. The shared `match` variable is null when the loop ends. |
| `Fragmenter.CodesMembers` | SnarkyAI.py:790-797 | The copy targets (`Codes`, one per code box, in order) hold a string exactly when some code box holds it. |
| `Fragmenter.CopyButtonsAsWritten` | SnarkyAI.py:773-803 | For every answer, there is one Copy button per code box, and button i is meant to copy box i's content. Clicked as the page is written, every button copies nothing. |
| `Fragmenter.CopyButtonLosesCode` | SnarkyAI.py:797 | For the answer "`a`", the page shows one code box holding a. Its button is meant to copy a, but clicked after the loop it copies nothing. |
| `Fragmenter.ScanFromRebuilds` | SnarkyAI.py:777-810 | The gaps and the matches from `lastIndex` onward, each match with its backticks put back, concatenate to the rest of the text exactly. |
| `Fragmenter.ScanRebuilds` | SnarkyAI.py:772-810 | The pieces of the whole answer rebuild the answer exactly, in input order. |
| `Fragmenter.ScanFromWellFormed` | SnarkyAI.py:777-810 | Every piece is non-empty and every code piece holds no backtick. No text piece holds a complete match. A text piece is followed by a code piece or ends the scan. |
| `Fragmenter.FragmentsWellFormed` | SnarkyAI.py:772-810 | Every fragment shown is a piece of the scan. Code boxes are non-empty and hold no backtick. Text nodes are not whitespace only and hold no code span the page failed to box. |
| `FragmentExamples.TextThenCode` | SnarkyAI.py:778-783 | A non-blank gap before a match is kept as text, its trailing space included, and is followed by the code box. |
| `FragmentExamples.BlankGapDropped` | SnarkyAI.py:780 | A whitespace-only gap between two matches is dropped, leaving the two code boxes side by side. |
| `FragmentExamples.TwoMatches` | SnarkyAI.py:777 | Successive `exec` calls find two matches one character apart; the third returns null. |
| `FragmentExamples.FirstPairWins` | SnarkyAI.py:772 | Matches do not overlap: the middle backtick closes the first match. The last backtick stays in the text. |
| `FragmentExamples.EmptyPair` | SnarkyAI.py:772 | Two adjacent backticks are not a match, so they are shown as text. |
| `ChatSession.LoadHistory` | SnarkyAI.py:31-43 | A missing or unreadable history file gives an empty history. A readable one gives its chats, so a saved history reloads as it was (SaveThenReload). |
| `ChatSession.Answer` | SnarkyAI.py:79 | The turn a success appends is never a user turn: an `ai` turn on the text lane and an `image` turn on the image lane (line 115), holding the stripped text. |
| `ChatSession.Api.constructor` | SnarkyAI.py:23-29 | The history is what `load_history` returns, each chat with a list of its own. No chat is current, nothing is saved and both lanes are free. |
| `ChatSession.Api.SaveHistoryToFile` | SnarkyAI.py:45-53 | The file now holds the whole history as it is. |
| `ChatSession.Api.GetHistory` | SnarkyAI.py:128-129 | Every chat of the history appears, in order, with its timestamp and the current contents of its list. |
| `ChatSession.Api.GenerateText` | SnarkyAI.py:55-90 | A busy text lane: returns "Generation in progress..." and changes nothing. Otherwise, with no current chat, exactly one new chat stamped `now` is appended and becomes current; with one, no chat is added. The prompt is appended, then on success only the stripped answer as an `ai` turn. The result is the stripped answer or "Error: " plus the message. The history is saved on success only. Both flags end as they began, and no other chat changes. |
| `ChatSession.Api.GenerateImage` | SnarkyAI.py:92-126 | The same rules on the image lane: the appended turn on success is an `image` turn holding the stripped URL. |
| `ChatSession.Api.Generate` | SnarkyAI.py:56-58 | The busy check both generation methods start with: a busy lane is rejected with nothing changed, and a free one runs. |
| `ChatSession.Api.Run` | SnarkyAI.py:60-90 | On a free lane, the flag is set for the exchange and released in the `finally`, on success and on failure alike. The other lane's flag is untouched. |
| `ChatSession.Api.Exchange` | SnarkyAI.py:60-77 | The body of the `try`, with the flag set: the lazy new chat, the prompt, then the provider's outcome. |
| `ChatSession.Api.Receive` | SnarkyAI.py:78-88 | On success the stripped answer is appended, the history saved and the answer returned. On failure nothing is appended, nothing saved, and "Error: " plus the message is returned. No chat outside the current list changes. |
| `ChatSession.Api.NewChat` | SnarkyAI.py:62-66 | A new, empty chat stamped `now` is appended at the end of the history, and its own list becomes the current chat. |
| `ChatSession.Api.AppendTurn` | SnarkyAI.py:69 | The current list grows by exactly the turn. No chat whose list is another one changes. |
| `ChatSession.Api.HistoryAfterExchange` | SnarkyAI.py:62-80 | The history after an exchange, as values. A new chat appears only at the end. A current list in the history changes that chat's turns and no other record. A current list not in the history leaves the history as it was. |
| `ChatSession.Api.SaveChat` | SnarkyAI.py:131-138 | A current chat with turns is saved and closed. With none, or an empty one, nothing changes. The history is never modified. |
| `ChatSession.Api.LoadChatFromHistory` | SnarkyAI.py:140-148 | The corrected `load_chat`: the chat at the given position, if it has turns, becomes current through its own list, so it is attached to the history, and the history is saved. Otherwise no chat is current and nothing is saved. |
| `ChatSession.Api.LoadChat` | SnarkyAI.py:140-148 | A non-empty list becomes the current chat, exactly as given, and the history is saved. None or an empty list leaves no chat current and saves nothing. The history is never modified. |
| `SessionScenarios.FirstMessage` | SnarkyAI.py:55-90 | On an empty history, the first exchange gives one chat holding the prompt and the answer. |
| `SessionScenarios.FailedImage` | SnarkyAI.py:92-126 | A failing image request returns "Error: " plus the message. It leaves the prompt alone in a new chat and writes nothing. |
| `SessionScenarios.BusyLane` | SnarkyAI.py:55-126 | A text request while the text lane is busy is rejected with no chat created. The image lane is still free and runs. |
| `SessionScenarios.SavedChat` | SnarkyAI.py:131-138 | After one exchange and `save_chat`, the history holds the chat, no chat is current and the file holds the history. |
| `SessionScenarios.SaveThenNewChat` | SnarkyAI.py:131-138 | After `save_chat`, the next message starts a second chat, and the first keeps its turns. |
| `SessionScenarios.LoadCopy` | SnarkyAI.py:140-148 | Loading the page's copy of a stored chat makes that copy current. The history and the saved file are the stored chats. |
| `SessionScenarios.ResumeFromPage` | SnarkyAI.py:140-148 | After a chat is resumed from the page, the exchange grows the page's copy. The history, as returned and as saved, stays the stored chats unchanged. |
| `SessionScenarios.LoadOwn` | SnarkyAI.py:140-148 | Loading a stored chat through its own list makes that list current. The history and the saved file are the stored chats. |
| `SessionScenarios.ResumeFromHistory` | SnarkyAI.py:55-90 | After a chat is resumed through its own list, the exchange adds the prompt and the answer to that chat in the history. Every other chat is unchanged, and the file holds the grown history. |
| `SessionScenarios.SaveThenReload` | SnarkyAI.py:27-53 | After a save, a fresh start-up that reads the written file has the same history, chat for chat, and no current chat. |

## Left out

- The g4f provider calls and the extraction of the text or URL from their responses. A provider is a function from model and prompt to `Success(text)` or `Failure(message)`, and `str(e)` is that message.
- An exception raised by `.strip()` itself, as on a completion whose content is None. Such a case is a `Failure` in the model.
- File I/O and JSON: `load_history` reads a `StoredHistory` value, saving is the snapshot `saved := Some(View())`, and `get_history` returns the values that `json.dumps` would serialise. A save that fails and only logs is not modelled: every save succeeds.
- The JSON shape of the history file. A readable file is assumed to hold well-formed chats.
- `time.time()`: the timestamp is the parameter `now`.
- Concurrency. The busy flags protect against the page calling again before a call returns. The model treats a flag as a field that may already be set, not as interleaved threads.
- Start-up and OS plumbing: path building, `os.makedirs`, logging, the asyncio policy, `open_url` and `webbrowser`, the window.
- The rest of the page: DOM nodes, the clipboard, notifications, menus and its own `isGenerating` flag. The code boxes are `Code` fragments, and a Copy click is `ClickAsWritten`.
- Characters are Unicode scalar values. JavaScript strings are UTF-16 code units, so a surrogate pair is one character here and two there. This changes no match, because a backtick is never part of a pair.

## Findings

| source | as written | input that shows it | evidently intended | confidence | as-written member | corrected member |
|---|---|---|---|---|---|---|
| SnarkyAI.py:797 | Every Copy button's handler calls `copyText(match[1])` on the single `match` variable declared before the loop (line 773). That variable is null once the loop has ended, so a click throws and copies nothing. | The AI answer "`a`": one code box showing a; clicking its Copy button copies nothing. | Each button copies its own box's content: a. | not executed | `Fragmenter.CopyButtonsAsWritten` (every answer; the concrete case in `Fragmenter.CopyButtonLosesCode`) | `Fragmenter.AddAIMessage` (`copies == Codes(fragments)`: one copy per code box, its own content, in order) |
| SnarkyAI.py:140-148 | `load_chat` stores the list it is given without looking it up in `chat_history`. The page sends a newly built copy of the chat's messages (lines 855, 885), so turns added after resuming a chat never reach the history or the file. | A history with one chat [user a, ai b]: resume it from the sidebar and send c. `get_history` and the file still show the chat with two turns. | The resumed chat in the history gets the new turns, and the history is saved with them. | not executed | `SessionScenarios.ResumeFromPage` | `ChatSession.Api.LoadChatFromHistory` (with `SessionScenarios.ResumeFromHistory`) |
