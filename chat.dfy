/** The session's chat history: a list that starts with one greeting and to
    which every submitted query adds the user's turn and the assistant's
    answer, a text message or a visualization with its insights. */
module Chat {
  import opened Pipeline

  datatype Role = User | Assistant

  /** The `type` entry of a turn. */
  datatype Kind = Text | Visualization

  /** One entry of the history. A visualization carries the image and the
      insights; a text turn carries neither. */
  datatype Turn = Turn(role: Role, content: string, kind: Kind,
                       image: Option<Bytes>, insights: Option<string>)

  const GreetingText: string :=
    "Hello! I'm Omega, your AI data analyst. I can help you visualize and analyze your data. What would you like to explore?"

  const VisualizationCaption: string := "Here's your visualization and analysis:"

  /** The one turn a new history holds. */
  const Greeting: Turn := Turn(Assistant, GreetingText, Text, None, None)

  /** One submitted query and the reply the controller gave it. */
  datatype Exchange = Exchange(query: string, reply: Reply)

  /** A visualization turn always carries a non-empty image and the insights
      together, and only the assistant produces one; a text turn carries
      neither. */
  predicate WellFormed(t: Turn) {
    && (t.kind == Visualization <==> t.image.Some?)
    && (t.kind == Visualization <==> t.insights.Some?)
    && (t.kind == Visualization ==> t.role == Assistant && |t.image.value| > 0)
  }

  /** The turn recording what the user typed. */
  function UserTurn(query: string): (t: Turn)
    ensures t.role == User && t.kind == Text && t.content == query
    ensures WellFormed(t)
  {
    Turn(User, query, Text, None, None)
  }

  /** The assistant's turn for a controller reply: a visualization exactly
      when the reply carries a non-empty image, otherwise the message as
      text. A reply with an empty image is shown as text. */
  function AssistantTurn(r: Reply): (t: Turn)
    ensures t.role == Assistant && WellFormed(t)
    ensures t.kind == Visualization <==> r.image.Some? && |r.image.value| > 0
    ensures t.kind == Visualization
            ==> t.image == r.image && t.insights == Some(r.message) && t.content == VisualizationCaption
    ensures t.kind == Text ==> t.content == r.message
  {
    if r.image.Some? && |r.image.value| > 0 then
      Turn(Assistant, VisualizationCaption, Visualization, r.image, Some(r.message))
    else
      Turn(Assistant, r.message, Text, None, None)
  }

  /** The history after the given exchanges, oldest first. */
  function HistoryAfter(exchanges: seq<Exchange>): (h: seq<Turn>)
    ensures |h| == 1 + 2 * |exchanges|
  {
    if exchanges == [] then [Greeting]
    else
      var last := exchanges[|exchanges| - 1];
      HistoryAfter(exchanges[..|exchanges| - 1]) + [UserTurn(last.query), AssistantTurn(last.reply)]
  }

  /** The shape every history keeps: the greeting first, then users' turns at
      odd positions and assistant's turns at even ones, each well formed. */
  predicate IsHistory(turns: seq<Turn>) {
    && |turns| % 2 == 1
    && turns[0] == Greeting
    && forall i :: 0 <= i < |turns| ==> WellFormed(turns[i]) && (turns[i].role == User <==> i % 2 == 1)
  }

  /** Adding one exchange keeps the shape. */
  lemma ExchangeKeepsShape(turns: seq<Turn>, e: Exchange)
    requires IsHistory(turns)
    ensures IsHistory(turns + [UserTurn(e.query), AssistantTurn(e.reply)])
  {
    var h := turns + [UserTurn(e.query), AssistantTurn(e.reply)];
    forall i | 0 <= i < |h| ensures WellFormed(h[i]) && (h[i].role == User <==> i % 2 == 1) {
      if i < |turns| {
        assert h[i] == turns[i];
      }
    }
  }

  /** Every history built from exchanges has the shape. */
  lemma {:induction false} HistoryAfterHasShape(exchanges: seq<Exchange>)
    ensures IsHistory(HistoryAfter(exchanges))
  {
    if exchanges != [] {
      var n := |exchanges| - 1;
      HistoryAfterHasShape(exchanges[..n]);
      ExchangeKeepsShape(HistoryAfter(exchanges[..n]), exchanges[n]);
    }
  }

  /** The history is append-only: later exchanges never change earlier turns. */
  lemma {:induction false} HistoryIsAppendOnly(exchanges: seq<Exchange>, more: seq<Exchange>)
    ensures HistoryAfter(exchanges) <= HistoryAfter(exchanges + more)
    decreases |more|
  {
    if more != [] {
      var all := exchanges + more;
      var n := |more| - 1;
      assert all[..|all| - 1] == exchanges + more[..n];
      HistoryIsAppendOnly(exchanges, more[..n]);
    } else {
      assert exchanges + more == exchanges;
    }
  }

  /** `st.session_state.messages`: absent until the chat is first shown. */
  class Session {
    var messages: Option<seq<Turn>>
    /** The exchanges recorded so far. */
    ghost var exchanges: seq<Exchange>

    ghost predicate Valid()
      reads this
    {
      && (messages.Some? ==> messages.value == HistoryAfter(exchanges))
      && (messages.None? ==> exchanges == [])
    }

    /** A fresh session holds no history. */
    constructor ()
      ensures Valid() && messages == None
    {
      messages := None;
      exchanges := [];
    }

    /** Creates the history holding only the greeting, unless it exists. */
    method InitHistory()
      requires Valid()
      modifies this
      ensures Valid() && messages.Some? && exchanges == old(exchanges)
      ensures old(messages).Some? ==> messages == old(messages)
      ensures old(messages).None? ==> messages == Some([Greeting])
    {
      if messages.None? {
        messages := Some([Greeting]);
      }
    }

    /** `messages.append(t)`. An internal step of `RecordExchange`: on its
        own it does not keep `Valid()`, since it records no exchange. */
    method Append(t: Turn)
      requires messages.Some?
      modifies this`messages
      ensures messages == Some(old(messages).value + [t])
    {
      messages := Some(messages.value + [t]);
    }

    /** One pass of the chat page with a dataset loaded: make sure the history
        exists, then, if the user submitted a (non-empty) query, record it,
        run the controller and record its reply. */
    method Interact(userQuery: string, o: Oracles, tempDir: string)
      requires Valid()
      modifies this
      ensures Valid() && messages.Some? && IsHistory(messages.value)
      ensures old(messages).None? ==> messages.value[0] == Greeting
      ensures userQuery == [] ==> exchanges == old(exchanges)
      ensures userQuery != []
              ==> exchanges == old(exchanges) + [Exchange(userQuery, ProcessQuery(o, tempDir).reply)]
      ensures old(messages).Some? && userQuery == [] ==> messages == old(messages)
      ensures old(messages).Some? && userQuery != []
              ==> messages.value == old(messages).value
                    + [UserTurn(userQuery), AssistantTurn(ProcessQuery(o, tempDir).reply)]
    {
      InitHistory();
      if userQuery != [] {
        var reply := ProcessQuery(o, tempDir).reply;
        RecordExchange(userQuery, reply);
      }
      HistoryAfterHasShape(exchanges);
    }

    /** Records one query and its reply: the user's turn, then the
        assistant's. */
    method RecordExchange(userQuery: string, reply: Reply)
      requires Valid() && messages.Some?
      modifies this
      ensures Valid() && messages.Some?
      ensures exchanges == old(exchanges) + [Exchange(userQuery, reply)]
      ensures messages.value == old(messages).value + [UserTurn(userQuery), AssistantTurn(reply)]
    {
      ghost var before := exchanges;
      Append(UserTurn(userQuery));
      Append(AssistantTurn(reply));
      exchanges := exchanges + [Exchange(userQuery, reply)];
      assert exchanges[..|exchanges| - 1] == before;
    }
  }
}
