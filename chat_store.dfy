/**
 * The chat page's session store: the `chatHistory` list and the
 * `currentChatId` variable, with the operations that change them in place.
 * Each method states its new state through the functions of ChatHistory;
 * the properties of those functions are proved there.
 *
 * Writing the list to local storage is modelled as the list value itself:
 * `history` after a save is what is persisted.
 */
module ChatStore {
  import opened Optional
  import opened ChatHistory

  /** `!currentChatId`: no session is current (null, or an empty id). */
  predicate NoCurrent(id: Option<string>)
  {
    id == None || id == Some("")
  }

  class Store {
    var history: seq<Session>
    var currentChatId: Option<string>

    /** The list as a save leaves it: newest first, at most 20 sessions. */
    ghost predicate Saved()
      reads this
    {
      Descending(history) && |history| <= MaxSessions
    }

    /**
     * Page start: the list read back from storage, and the newest stored
     * session (if any) loaded as the current one.
     */
    constructor (stored: seq<Session>)
      ensures history == stored
      ensures currentChatId == if stored == [] then None else Some(stored[0].id)
    {
      history := stored;
      currentChatId := if stored == [] then None else Some(stored[0].id);
    }

    /** saveChatHistory: sort newest first (stably) and keep the first 20. */
    method SaveChatHistory()
      modifies this`history
      ensures history == SortAndCap(old(history))
      ensures Saved()
    {
      history := SortAndCap(history);
    }

    /**
     * createNewChat: a fresh session with id `"chat_" + now` goes to the
     * front, becomes current, and the list is saved. With a clock that has
     * not gone backwards the new session is first in the saved list.
     */
    method CreateNewChat(now: nat)
      modifies this
      ensures currentChatId == Some(ChatId(now))
      ensures history == SortAndCap([NewSession(now)] + old(history))
      ensures Saved()
      ensures NotAfter(old(history), now) ==> history != [] && history[0] == NewSession(now)
    {
      currentChatId := Some(ChatId(now));
      var newChat := NewSession(now);
      history := [newChat] + history;
      SaveChatHistory();
      if NotAfter(old(history), now) {
        NewSessionIsFirstAfterSave(old(history), now);
      }
    }

    /**
     * saveMessageToChat: create a session first when none is current; then,
     * if the current id is in the list, append the message to that session,
     * apply the title rule, bump its last activity, move it to the front
     * and save. A current id that is not in the list changes nothing.
     */
    method SaveMessageToChat(role: Role, content: string, now: nat)
      modifies this
      ensures NoCurrent(old(currentChatId)) ==> currentChatId == Some(ChatId(now))
      ensures !NoCurrent(old(currentChatId)) ==> currentChatId == old(currentChatId)
      ensures var start := if NoCurrent(old(currentChatId))
                           then SortAndCap([NewSession(now)] + old(history))
                           else old(history);
              match FindIndex(start, currentChatId.value)
              case None => history == start
              case Some(i) => history == SortAndCap(MoveToFront(start, i, role, content, now))
      ensures old(Saved()) ==> Saved()
    {
      if NoCurrent(currentChatId) {
        CreateNewChat(now);
      }
      var chatIndex := FindIndex(history, currentChatId.value);
      if chatIndex.Some? {
        var i := chatIndex.value;
        var chat := history[i];
        chat := chat.(messages := chat.messages + [Message(role, content, now)]);
        if role == User && chat.title == DefaultTitle {
          chat := chat.(title := Headline(content));
        }
        chat := chat.(lastActivity := now);
        assert chat == Touch(history[i], role, content, now);
        ghost var moved := MoveToFront(history, i, role, content, now);
        history := history[..i] + history[i + 1..];
        history := [chat] + history;
        assert history == moved;
        SaveChatHistory();
      }
    }

    /**
     * loadChat: when a session has the id, it becomes current and is
     * projected to the welcome screen or to its lines; otherwise nothing
     * happens. The list itself is never changed.
     */
    method LoadChat(chatId: string) returns (view: Option<View>)
      modifies this`currentChatId
      ensures history == old(history)
      ensures FindIndex(history, chatId).None? ==> currentChatId == old(currentChatId) && view == None
      ensures FindIndex(history, chatId).Some? ==>
                currentChatId == Some(chatId) && view == Some(Render(history[FindIndex(history, chatId).value]))
    {
      view := None;
      var found := FindIndex(history, chatId);
      if found.Some? {
        var chat := history[found.value];
        currentChatId := Some(chatId);
        if |chat.messages| == 0 {
          view := Some(Welcome);
        } else {
          var lines: seq<Line> := [];
          for k := 0 to |chat.messages|
            invariant |lines| == k
            invariant forall j :: 0 <= j < k ==>
                        lines[j] == Line(SpeakerLabel(chat.messages[j].role), chat.messages[j].content)
          {
            lines := lines + [Line(SpeakerLabel(chat.messages[k].role), chat.messages[k].content)];
          }
          assert lines == Lines(chat.messages);
          view := Some(Transcript(lines));
        }
      }
    }

    /**
     * deleteChat: drop every session with the id; if it was current, the
     * first remaining session becomes current (or none is left); save.
     */
    method DeleteChat(chatId: string)
      modifies this
      ensures history == SortAndCap(Without(old(history), chatId))
      ensures old(currentChatId) != Some(chatId) ==> currentChatId == old(currentChatId)
      ensures old(currentChatId) == Some(chatId) ==>
                currentChatId == if Without(old(history), chatId) == [] then None
                                 else Some(Without(old(history), chatId)[0].id)
      ensures Saved()
    {
      history := Without(history, chatId);
      if currentChatId == Some(chatId) {
        if |history| > 0 {
          var shown := LoadChat(history[0].id);
        } else {
          currentChatId := None;
        }
      }
      SaveChatHistory();
    }

    /** clearAllChats: no sessions and no current session. */
    method ClearAllChats()
      modifies this
      ensures history == [] && currentChatId == None
    {
      history := [];
      currentChatId := None;
      SaveChatHistory();
    }

    /** showClearAllModal: the confirmation opens only when there is something to clear; nothing changes. */
    method ShowClearAllModal() returns (confirming: bool)
      ensures confirming <==> history != []
    {
      if |history| == 0 {
        return false;
      }
      return true;
    }
  }
}
