/**
 * The chat-session list of the chat page as values: sessions and messages,
 * the title rule, the persist-time ordering (a stable sort descending by
 * last activity followed by a cap of 20), the move-to-front of a session
 * that received a message, the removal of a session, and the projection of
 * a session to the lines the page shows.
 *
 * Timestamps are milliseconds on a `nat` clock; the source stores them as
 * ISO strings and compares them by converting back to milliseconds.
 */
module ChatHistory {
  import opened Optional
  import opened Text

  datatype Role = User | Assistant

  datatype Message = Message(role: Role, content: string, timestamp: nat)

  datatype Session = Session(
    id: string,
    title: string,
    messages: seq<Message>,
    createdAt: nat,
    lastActivity: nat)

  /** The placeholder title of a session that has no user message yet. */
  const DefaultTitle: string := "New Chat"
  /** How many characters of the first user message a title keeps. */
  const TitleLimit: nat := 30
  const Ellipsis: string := "..."
  /** How many sessions survive a save. */
  const MaxSessions: nat := 20

  // ---------------------------------------------------------------------
  // Creating a session

  /** The identifier `'chat_' + Date.now()`. */
  function ChatId(now: nat): string
  {
    "chat_" + Decimal(now)
  }

  /** Sessions created at different clock readings get different ids. */
  lemma ChatIdInjective(a: nat, b: nat)
    ensures ChatId(a) == ChatId(b) ==> a == b
  {
    if ChatId(a) == ChatId(b) {
      assert ChatId(a)[5..] == Decimal(a) && ChatId(b)[5..] == Decimal(b);
      DecimalInjective(a, b);
    }
  }

  /** The object literal built by createNewChat. */
  function NewSession(now: nat): Session
  {
    Session(ChatId(now), DefaultTitle, [], now, now)
  }

  // ---------------------------------------------------------------------
  // The title rule

  /** The title derived from a user message: the content, cut to 30 characters plus an ellipsis when longer. */
  function Headline(content: string): (t: string)
    ensures |content| <= TitleLimit ==> t == content
    ensures |content| > TitleLimit ==>
              |t| == TitleLimit + |Ellipsis| && t[..TitleLimit] == content[..TitleLimit] && t[TitleLimit..] == Ellipsis
    ensures |t| <= TitleLimit + |Ellipsis|
  {
    if |content| > TitleLimit then content[..TitleLimit] + Ellipsis else content
  }

  /** A headline is the placeholder only when the content itself is the placeholder. */
  lemma HeadlineIsPlaceholderOnlyForPlaceholder(content: string)
    ensures Headline(content) == DefaultTitle <==> content == DefaultTitle
  {
    if |content| > TitleLimit {
      assert |Headline(content)| != |DefaultTitle|;
    }
  }

  /** The title after a message of `role` with `content` is appended. */
  function Retitled(title: string, role: Role, content: string): (t: string)
    ensures t != title ==> role == User && title == DefaultTitle
    ensures role == User && title == DefaultTitle ==> t == Headline(content)
  {
    if role == User && title == DefaultTitle then Headline(content) else title
  }

  /** The title after appending each of `ms` in turn. */
  function TitleAfter(title: string, ms: seq<Message>): string
    decreases ms
  {
    if ms == [] then title else TitleAfter(Retitled(title, ms[0].role, ms[0].content), ms[1..])
  }

  /** Once a title differs from the placeholder, no later message changes it. */
  lemma {:induction false} TitleIsSettled(title: string, ms: seq<Message>)
    requires title != DefaultTitle
    ensures TitleAfter(title, ms) == title
  {
    if ms != [] {
      TitleIsSettled(title, ms[1..]);
    }
  }

  /**
   * Starting from the placeholder, the title ends up as the headline of the
   * first user message whose content is not the text "New Chat": assistant
   * messages, and user messages reading "New Chat" (whose headline is the
   * placeholder itself), leave the placeholder in place.
   */
  lemma {:induction false} TitleFromFirstUserMessage(ms: seq<Message>, k: nat)
    requires k < |ms| && ms[k].role == User && ms[k].content != DefaultTitle
    requires forall j :: 0 <= j < k ==> ms[j].role == Assistant || ms[j].content == DefaultTitle
    ensures TitleAfter(DefaultTitle, ms) == Headline(ms[k].content)
  {
    if k == 0 {
      HeadlineIsPlaceholderOnlyForPlaceholder(ms[0].content);
      TitleIsSettled(Headline(ms[0].content), ms[1..]);
    } else {
      assert Retitled(DefaultTitle, ms[0].role, ms[0].content) == DefaultTitle;
      TitleFromFirstUserMessage(ms[1..], k - 1);
    }
  }

  /** A user message reading "New Chat" leaves the placeholder, so a later user message still sets the title. */
  lemma PlaceholderMessageDoesNotSettleTitle()
    ensures TitleAfter(DefaultTitle, [Message(User, DefaultTitle, 1), Message(User, "hello", 2)]) == "hello"
  {
    var ms := [Message(User, DefaultTitle, 1), Message(User, "hello", 2)];
    TitleFromFirstUserMessage(ms, 1);
  }

  // ---------------------------------------------------------------------
  // Appending a message

  /** The session after `chat.messages.push(...)`, the title rule and the `lastActivity` update. */
  function Touch(chat: Session, role: Role, content: string, now: nat): Session
  {
    chat.(messages := chat.messages + [Message(role, content, now)],
          title := Retitled(chat.title, role, content),
          lastActivity := now)
  }

  /** The list after `splice(index, 1)` followed by `unshift` of the touched session. */
  function MoveToFront(h: seq<Session>, index: nat, role: Role, content: string, now: nat): seq<Session>
    requires index < |h|
  {
    [Touch(h[index], role, content, now)] + (h[..index] + h[index + 1..])
  }

  /** `findIndex(c => c.id === id)`: the position of the first session with `id`. */
  function FindIndex(h: seq<Session>, id: string, from: nat := 0): (r: Option<nat>)
    requires from <= |h|
    ensures r.Some? ==> from <= r.value < |h| && h[r.value].id == id
    ensures r.Some? ==> forall j :: from <= j < r.value ==> h[j].id != id
    ensures r.None? ==> forall j :: from <= j < |h| ==> h[j].id != id
    decreases |h| - from
  {
    if from == |h| then None
    else if h[from].id == id then Some(from)
    else FindIndex(h, id, from + 1)
  }

  // ---------------------------------------------------------------------
  // Ordering and retention at save time

  /** Sessions in descending order of last activity. */
  ghost predicate Descending(h: seq<Session>)
  {
    forall i, j :: 0 <= i < j < |h| ==> h[i].lastActivity >= h[j].lastActivity
  }

  /** Every session's last activity is at or before `now` (the clock has not gone backwards). */
  ghost predicate NotAfter(h: seq<Session>, now: nat)
  {
    forall i :: 0 <= i < |h| ==> h[i].lastActivity <= now
  }

  /**
   * Places `x` before the first session that is not more recent than it:
   * `x` comes from before all of `h` in the list being sorted, so a tie
   * keeps `x` first.
   */
  function Insert(x: Session, h: seq<Session>): (r: seq<Session>)
    ensures |r| == |h| + 1
    ensures multiset(r) == multiset(h) + multiset{x}
    ensures r[0] == x || (h != [] && r[0] == h[0])
  {
    if h == [] || h[0].lastActivity <= x.lastActivity then
      [x] + h
    else
      assert h == [h[0]] + h[1..];
      [h[0]] + Insert(x, h[1..])
  }

  lemma {:induction false} InsertKeepsDescending(x: Session, h: seq<Session>)
    requires Descending(h)
    ensures Descending(Insert(x, h))
  {
    if h != [] && h[0].lastActivity > x.lastActivity {
      var rest := Insert(x, h[1..]);
      InsertKeepsDescending(x, h[1..]);
      var r := [h[0]] + rest;
      assert Insert(x, h) == r;
      assert rest[0].lastActivity <= h[0].lastActivity;
      forall i, j | 0 <= i < j < |r| ensures r[i].lastActivity >= r[j].lastActivity {
        assert r[j] == rest[j - 1];
        if i > 0 {
          assert r[i] == rest[i - 1];
        }
      }
    }
  }

  /**
   * The comparator `(a, b) => b.lastActivity - a.lastActivity` under a
   * stable sort, as an insertion sort.
   */
  function SortByActivity(h: seq<Session>): (r: seq<Session>)
    ensures |r| == |h|
    ensures multiset(r) == multiset(h)
    ensures Descending(r)
  {
    if h == [] then []
    else
      assert h == [h[0]] + h[1..];
      InsertKeepsDescending(h[0], SortByActivity(h[1..]));
      Insert(h[0], SortByActivity(h[1..]))
  }

  /** `sort(...).slice(0, 20)`: the list saveChatHistory keeps. */
  function SortAndCap(h: seq<Session>): (r: seq<Session>)
    ensures |r| == if |h| <= MaxSessions then |h| else MaxSessions
    ensures Descending(r)
  {
    var sorted := SortByActivity(h);
    if |sorted| <= MaxSessions then sorted
    else
      assert forall i, j :: 0 <= i < j < MaxSessions ==> sorted[..MaxSessions][i] == sorted[i] && sorted[..MaxSessions][j] == sorted[j];
      sorted[..MaxSessions]
  }

  /** The sessions of `h` whose last activity is `t`, in list order. */
  function ActivityRun(h: seq<Session>, t: nat): seq<Session>
  {
    if h == [] then [] else RunHead(h[0], t) + ActivityRun(h[1..], t)
  }

  /** `[y]` when `y` has last activity `t`, otherwise nothing. */
  function RunHead(y: Session, t: nat): seq<Session>
  {
    if y.lastActivity == t then [y] else []
  }

  /** The run of `y` followed by `h`. */
  lemma RunOfCons(y: Session, h: seq<Session>, t: nat)
    ensures ActivityRun([y] + h, t) == RunHead(y, t) + ActivityRun(h, t)
  {
    assert ([y] + h)[0] == y && ([y] + h)[1..] == h;
  }

  lemma {:induction false} ActivityRunConcat(a: seq<Session>, b: seq<Session>, t: nat)
    ensures ActivityRun(a + b, t) == ActivityRun(a, t) + ActivityRun(b, t)
  {
    if a == [] {
      assert a + b == b;
    } else {
      calc {
        ActivityRun(a + b, t);
      == { assert (a + b)[0] == a[0] && (a + b)[1..] == a[1..] + b; }
        RunHead(a[0], t) + ActivityRun(a[1..] + b, t);
      == { ActivityRunConcat(a[1..], b, t); }
        RunHead(a[0], t) + (ActivityRun(a[1..], t) + ActivityRun(b, t));
      ==
        ActivityRun(a, t) + ActivityRun(b, t);
      }
    }
  }

  /** Two sessions with different last activities cannot both be in one run. */
  lemma RunHeadsCommute(x: Session, y: Session, tail: seq<Session>, t: nat)
    requires x.lastActivity != y.lastActivity
    ensures RunHead(x, t) + (RunHead(y, t) + tail) == RunHead(y, t) + (RunHead(x, t) + tail)
  {
    if x.lastActivity == t {
      assert RunHead(y, t) == [];
    } else {
      assert RunHead(x, t) == [];
    }
  }

  lemma {:induction false} InsertKeepsRuns(x: Session, h: seq<Session>, t: nat)
    ensures ActivityRun(Insert(x, h), t) == ActivityRun([x] + h, t)
  {
    if h != [] && h[0].lastActivity > x.lastActivity {
      var inserted := Insert(x, h[1..]);
      assert Insert(x, h) == [h[0]] + inserted;
      RunOfCons(h[0], inserted, t);
      InsertKeepsRuns(x, h[1..], t);
      RunOfCons(x, h[1..], t);
      RunHeadsCommute(x, h[0], ActivityRun(h[1..], t), t);
      RunOfCons(x, h, t);
    }
  }

  /**
   * The sort is stable: for every last-activity value, the sessions carrying
   * it appear in the same relative order before and after sorting.
   */
  lemma {:induction false} SortIsStable(h: seq<Session>, t: nat)
    ensures ActivityRun(SortByActivity(h), t) == ActivityRun(h, t)
  {
    if h != [] {
      var sortedRest := SortByActivity(h[1..]);
      SortIsStable(h[1..], t);
      InsertKeepsRuns(h[0], sortedRest, t);
      RunOfCons(h[0], sortedRest, t);
      assert ActivityRun(h, t) == RunHead(h[0], t) + ActivityRun(h[1..], t);
    }
  }

  /** Sorting a list that is already in descending order changes nothing. */
  lemma {:induction false} SortKeepsSortedList(h: seq<Session>)
    requires Descending(h)
    ensures SortByActivity(h) == h
  {
    if h != [] {
      SortKeepsSortedList(h[1..]);
      assert h == [h[0]] + h[1..];
    }
  }

  /** A session at least as recent as every other, placed first, stays first after the sort. */
  lemma NewestStaysFirst(x: Session, h: seq<Session>)
    requires NotAfter(h, x.lastActivity)
    ensures SortByActivity([x] + h)[0] == x
  {
    assert ([x] + h)[1..] == h;
    var rest := SortByActivity(h);
    if rest != [] {
      assert rest[0] in multiset(h);
    }
  }

  /** The sessions a save drops: the sorted list past its first 20. */
  function Dropped(h: seq<Session>): (d: seq<Session>)
    ensures SortByActivity(h) == SortAndCap(h) + d
  {
    var sorted := SortByActivity(h);
    if |sorted| <= MaxSessions then
      assert sorted == sorted + [];
      []
    else
      assert sorted == sorted[..MaxSessions] + sorted[MaxSessions..];
      sorted[MaxSessions..]
  }

  /**
   * What a save keeps: a list in descending order of last activity with at
   * most 20 entries (SortAndCap), drawn from the input, and holding its most
   * recent sessions: every kept session is at least as recent as every
   * dropped one.
   */
  lemma CapKeepsMostRecent(h: seq<Session>)
    ensures multiset(SortAndCap(h)) + multiset(Dropped(h)) == multiset(h)
    ensures forall i, j :: 0 <= i < |SortAndCap(h)| && 0 <= j < |Dropped(h)| ==>
              SortAndCap(h)[i].lastActivity >= Dropped(h)[j].lastActivity
  {
    var sorted := SortByActivity(h);
    var r, d := SortAndCap(h), Dropped(h);
    assert multiset(sorted) == multiset(r) + multiset(d);
    forall i, j | 0 <= i < |r| && 0 <= j < |d|
      ensures r[i].lastActivity >= d[j].lastActivity
    {
      assert sorted[i] == r[i] && sorted[|r| + j] == d[j];
    }
  }

  /**
   * Among sessions tied on last activity, the save keeps the ones listed
   * first: for every value the kept run is a prefix of the input's run.
   */
  lemma CapKeepsEarliestOfTies(h: seq<Session>, t: nat)
    ensures ActivityRun(SortAndCap(h), t) <= ActivityRun(h, t)
  {
    SortIsStable(h, t);
    ActivityRunConcat(SortAndCap(h), Dropped(h), t);
  }

  /**
   * With a clock that has not gone backwards, a session created now is at
   * index 0 of the saved list.
   */
  lemma NewSessionIsFirstAfterSave(h: seq<Session>, now: nat)
    requires NotAfter(h, now)
    ensures SortAndCap([NewSession(now)] + h) != []
    ensures SortAndCap([NewSession(now)] + h)[0] == NewSession(now)
  {
    NewestStaysFirst(NewSession(now), h);
  }

  /** Removing one entry keeps a list in descending order. */
  lemma RemoveKeepsDescending(h: seq<Session>, index: nat)
    requires index < |h| && Descending(h)
    ensures Descending(h[..index] + h[index + 1..])
  {
    var r := h[..index] + h[index + 1..];
    forall i, j | 0 <= i < j < |r| ensures r[i].lastActivity >= r[j].lastActivity {
      var i' := if i < index then i else i + 1;
      var j' := if j < index then j else j + 1;
      assert r[i] == h[i'] && r[j] == h[j'];
    }
  }

  /**
   * Appending to a saved list with a clock that has not gone backwards:
   * after the save the touched session is first, carries exactly one more
   * message at the end, has last activity `now`, and every other session
   * follows in its previous relative order with its content unchanged.
   */
  lemma AppendMovesSessionToFront(h: seq<Session>, index: nat, role: Role, content: string, now: nat)
    requires index < |h| && Descending(h) && |h| <= MaxSessions && NotAfter(h, now)
    ensures var r := SortAndCap(MoveToFront(h, index, role, content, now));
      && |r| == |h|
      && r[0].id == h[index].id
      && r[0].createdAt == h[index].createdAt
      && r[0].messages == h[index].messages + [Message(role, content, now)]
      && r[0].lastActivity == now
      && r[0].title == Retitled(h[index].title, role, content)
      && r[1..] == h[..index] + h[index + 1..]
  {
    var others := h[..index] + h[index + 1..];
    var moved := MoveToFront(h, index, role, content, now);
    RemoveKeepsDescending(h, index);
    assert forall k :: 0 <= k < |others| ==> others[k] in multiset(h);
    assert moved[1..] == others;
    SortKeepsSortedList(moved);
  }

  // ---------------------------------------------------------------------
  // Removing sessions

  /** `filter(chat => chat.id !== id)`. */
  function Without(h: seq<Session>, id: string): (r: seq<Session>)
    ensures |r| <= |h|
  {
    if h == [] then []
    else (if h[0].id == id then [] else [h[0]]) + Without(h[1..], id)
  }

  /** The filter keeps exactly the sessions whose id differs from `id`. */
  lemma {:induction false} WithoutMembers(h: seq<Session>, id: string)
    ensures forall c :: c in Without(h, id) <==> c in h && c.id != id
  {
    if h != [] {
      WithoutMembers(h[1..], id);
      assert h == [h[0]] + h[1..];
    }
  }

  /** The filter works piecewise, so the surviving sessions keep their relative order. */
  lemma {:induction false} WithoutConcat(a: seq<Session>, b: seq<Session>, id: string)
    ensures Without(a + b, id) == Without(a, id) + Without(b, id)
  {
    if a != [] {
      var head := if a[0].id == id then [] else [a[0]];
      assert (a + b)[0] == a[0] && (a + b)[1..] == a[1..] + b;
      WithoutConcat(a[1..], b, id);
      calc {
        Without(a + b, id);
        head + Without(a[1..] + b, id);
        head + (Without(a[1..], id) + Without(b, id));
        (head + Without(a[1..], id)) + Without(b, id);
      }
    } else {
      assert a + b == b;
    }
  }

  /** Removing sessions keeps a list in descending order. */
  lemma {:induction false} WithoutKeepsDescending(h: seq<Session>, id: string)
    requires Descending(h)
    ensures Descending(Without(h, id))
  {
    if h != [] {
      WithoutKeepsDescending(h[1..], id);
      var rest := Without(h[1..], id);
      WithoutMembers(h[1..], id);
      assert forall k :: 0 <= k < |rest| ==> rest[k] in h[1..];
    }
  }

  /**
   * Deleting from a saved list: the save that follows changes nothing, so
   * the first remaining session, which the source selects when the current
   * one is deleted, is the most recently active one.
   */
  lemma DeleteNeedsNoResort(h: seq<Session>, id: string)
    requires Descending(h) && |h| <= MaxSessions
    ensures SortAndCap(Without(h, id)) == Without(h, id)
    ensures forall c :: c in Without(h, id) ==> Without(h, id)[0].lastActivity >= c.lastActivity
  {
    WithoutKeepsDescending(h, id);
    SortKeepsSortedList(Without(h, id));
  }

  // ---------------------------------------------------------------------
  // Rendering a session

  datatype Line = Line(speaker: string, content: string)

  /** What the message area shows: the welcome screen, or one line per message. */
  datatype View = Welcome | Transcript(lines: seq<Line>)

  /** The header label renderMessage writes for a message of `role`. */
  function SpeakerLabel(role: Role): string
  {
    if role == User then "You" else "MannieTech AI"
  }

  /** One rendered line per message, in stored order. */
  function Lines(ms: seq<Message>): (r: seq<Line>)
    ensures |r| == |ms|
    ensures forall i :: 0 <= i < |ms| ==> r[i] == Line(SpeakerLabel(ms[i].role), ms[i].content)
  {
    if ms == [] then [] else [Line(SpeakerLabel(ms[0].role), ms[0].content)] + Lines(ms[1..])
  }

  /** loadChat's projection of a session: the welcome screen when it has no messages. */
  function Render(chat: Session): (v: View)
    ensures v == Welcome <==> chat.messages == []
    ensures v.Transcript? ==> v.lines == Lines(chat.messages)
  {
    if |chat.messages| == 0 then Welcome else Transcript(Lines(chat.messages))
  }
}
