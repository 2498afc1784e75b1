/** Runs of user actions against the store: a sequence of starts, and the
    create, prompt, end, create walk through the application. */
module Scenarios {
  import opened Wrappers
  import opened Text
  import opened Dates
  import opened Sessions
  import opened Lifecycle
  import Home
  import Chat
  import Navigation

  /** Pressing "Start Chat With ReX" once per clock reading, stopping at the
      first failure. */
  function StartAll(store: seq<Session>, days: seq<CalendarDate>): Result<seq<Session>, StoreError>
    decreases |days|
  {
    if |days| == 0 then Success(store)
    else match StartChat(store, days[0])
      case Failure(e) => Failure(e)
      case Success(next) => StartAll(next, days[1..])
  }

  /** Position `i` holds the session numbered `i + 1`. */
  predicate NumberedFromOne(store: seq<Session>) {
    forall i | 0 <= i < |store| :: Key(store[i]) == i + 1
  }

  lemma AfterStartNumbered(store: seq<Session>, today: CalendarDate)
    requires Wf(store) && NumberedFromOne(store)
    ensures NumberedFromOne(AfterStart(store, today))
  {
    AfterStartKeepsWf(store, today);
    var r := AfterStart(store, today);
    var n := |store|;
    forall i | 0 <= i < |r|
      ensures Key(r[i]) == i + 1
    {
      if i < n - 1 {
        assert r[i] == store[i];
      } else if i == n - 1 {
        assert r[i].id == store[i].id;
      }
    }
  }

  /** However many starts follow one another on a well-formed store, each
      succeeds, the store grows by one session per start, at most one
      session is open afterwards, and a store numbered 1, 2, ... stays
      numbered that way. */
  lemma {:induction false} StartAllKeepsWf(store: seq<Session>, days: seq<CalendarDate>)
    requires Wf(store)
    ensures StartAll(store, days).Success?
    ensures Wf(StartAll(store, days).value)
    ensures |StartAll(store, days).value| == |store| + |days|
    ensures |Active(StartAll(store, days).value)| <= 1
    ensures NumberedFromOne(store) ==> NumberedFromOne(StartAll(store, days).value)
    decreases |days|
  {
    if |days| == 0 {
      WfAtMostOneActive(store);
    } else {
      StartChatIsAfterStart(store, days[0]);
      AfterStartKeepsWf(store, days[0]);
      if NumberedFromOne(store) {
        AfterStartNumbered(store, days[0]);
      }
      StartAllKeepsWf(AfterStart(store, days[0]), days[1..]);
    }
  }

  /** A canonical id is the decimal text of its number. */
  lemma CanonicalIdIsKeyText(s: Session)
    requires IsCanonical(s.id)
    ensures s.id == NatToString(Key(s))
  {
  }

  /** Starting from an empty store, `n` starts give the ids "1", ..., "n"
      in store order, with only the last one open. */
  lemma StartAllFromEmpty(days: seq<CalendarDate>)
    ensures StartAll([], days).Success?
    ensures
      var r := StartAll([], days).value;
      && |r| == |days|
      && (forall i | 0 <= i < |r| :: r[i].id == NatToString(i + 1))
      && (forall i | 0 <= i < |r| - 1 :: r[i].isSessionEnded)
  {
    StartAllKeepsWf([], days);
    var r := StartAll([], days).value;
    forall i | 0 <= i < |r|
      ensures r[i].id == NatToString(i + 1)
    {
      CanonicalIdIsKeyText(r[i]);
    }
  }

  const Prompt := "How do I switch careers?"

  /** The first two steps: a start on the empty store, then one prompt. */
  lemma FirstChatWithPrompt(d1: CalendarDate, d2: CalendarDate, completion: Option<string>)
    ensures StartChat([], d1) == Success([Started("1", d1)])
    ensures SubmitTurn([Started("1", d1)], "1", Prompt, completion, d2).Success?
    ensures
      var s2 := SubmitTurn([Started("1", d1)], "1", Prompt, completion, d2).value;
      && Wf(s2) && |s2| == 1 && s2[0].id == "1" && !s2[0].isSessionEnded
      && s2[0].chats == [Home.IntroTurn, Chat.TurnOf(Prompt, completion)]
  {
    StartChatOnEmpty(d1);
    var s1 := [Started("1", d1)];
    SubmitTurnAppends(s1, 0, Prompt, completion, d2);
    SubmitTurnKeepsWf(s1, "1", Prompt, completion, d2);
    var s2 := SubmitTurn(s1, "1", Prompt, completion, d2).value;
    assert s2[0].chats == [Home.IntroTurn] + [Chat.TurnOf(Prompt, completion)];
  }

  /** Ending the only chat keeps its turns. */
  lemma EndOnlyChat(s2: seq<Session>, d3: CalendarDate)
    requires Wf(s2) && |s2| == 1 && s2[0].id == "1"
    ensures ModifyChat(s2, "End", Some("1"), d3).Success?
    ensures
      var s3 := ModifyChat(s2, "End", Some("1"), d3).value;
      && Wf(s3) && |s3| == 1 && s3[0].id == "1" && s3[0].isSessionEnded && s3[0].chats == s2[0].chats
  {
    Navigation.EndKeepsChats("1", s2, d3, 0);
    EndChatKeepsWf(s2, Some("1"), d3);
  }

  /** A start after the first chat ended numbers the new chat "2". */
  lemma StartSecondChat(s3: seq<Session>, d4: CalendarDate)
    requires Wf(s3) && |s3| == 1 && s3[0].id == "1" && s3[0].isSessionEnded
    ensures StartChat(s3, d4).Success?
    ensures
      var s4 := StartChat(s3, d4).value;
      && |s4| == 2 && s4[0] == s3[0]
      && s4[1].id == "2" && !s4[1].isSessionEnded && s4[1].chats == [Home.IntroTurn]
  {
    StartChatIsAfterStart(s3, d4);
    AfterStartKeepsWf(s3, d4);
    var s4 := AfterStart(s3, d4);
    NatToStringIsCanonical(1);
    assert NatToString(1) == "1";
    assert Key(s3[0]) == 1;
    assert s4[0] == s3[0].(isSessionEnded := true) == s3[0];
    assert NatToString(2) == "2";
  }

  /** The walk through the application: start a chat on an empty store,
      send one prompt, end the chat, start another. The first chat holds
      the introduction and one turn (the prompt and ReX's reply share a
      turn), keeps both after it is ended, and stays ended; the second chat
      is "2" and open. */
  lemma Walkthrough(d1: CalendarDate, d2: CalendarDate, d3: CalendarDate, d4: CalendarDate, completion: Option<string>)
    ensures StartChat([], d1) == Success([Started("1", d1)])
    ensures SubmitTurn([Started("1", d1)], "1", Prompt, completion, d2).Success?
    ensures
      var s2 := SubmitTurn([Started("1", d1)], "1", Prompt, completion, d2).value;
      && s2[0].chats == [Home.IntroTurn, Chat.TurnOf(Prompt, completion)]
      && ModifyChat(s2, "End", Some("1"), d3).Success?
      && var s3 := ModifyChat(s2, "End", Some("1"), d3).value;
      && s3[0].isSessionEnded && s3[0].chats == s2[0].chats
      && StartChat(s3, d4).Success?
      && var s4 := StartChat(s3, d4).value;
      && |s4| == 2 && s4[0].isSessionEnded && s4[0].chats == s2[0].chats
      && s4[1].id == "2" && !s4[1].isSessionEnded
  {
    FirstChatWithPrompt(d1, d2, completion);
    var s2 := SubmitTurn([Started("1", d1)], "1", Prompt, completion, d2).value;
    EndOnlyChat(s2, d3);
    var s3 := ModifyChat(s2, "End", Some("1"), d3).value;
    StartSecondChat(s3, d4);
  }
}
