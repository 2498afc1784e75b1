/** The session lifecycle as the document store sees it. Each user action
    is a page handler composed with the store writes it issues: a POST
    appends, a PATCH or PUT carrying a full record replaces the record with
    that id, a DELETE removes it. The home page reads the store reversed;
    the chat page and the navigation bar read it as stored. */
module Lifecycle {
  import opened Wrappers
  import opened Text
  import opened Dates
  import opened Sessions
  import Home
  import Chat
  import Navigation

  /** The number a session's id parses to, or -1 when it does not parse. */
  function Key(s: Session): int {
    match ParseInt(s.id)
    case Some(n) => n
    case None => -1
  }

  /** Every id is the decimal text of a positive number. */
  predicate IdsCanonical(store: seq<Session>) {
    forall i | 0 <= i < |store| :: IsCanonical(store[i].id) && Key(store[i]) >= 1
  }

  /** The id numbers, in store order. */
  function Keys(store: seq<Session>): (r: seq<int>)
    ensures |r| == |store|
    ensures forall i | 0 <= i < |store| :: r[i] == Key(store[i])
  {
    if |store| == 0 then [] else [Key(store[0])] + Keys(store[1..])
  }

  predicate Increasing(xs: seq<int>) {
    forall i, j | 0 <= i < j < |xs| :: xs[i] < xs[j]
  }

  /** Id numbers strictly increase in store order. */
  predicate KeysIncreasing(store: seq<Session>) {
    Increasing(Keys(store))
  }

  /** Every session but the newest (the last) is ended. */
  predicate OnlyNewestOpen(store: seq<Session>) {
    forall i | 0 <= i < |store| - 1 :: store[i].isSessionEnded
  }

  /** The store as the application keeps it: canonical positive ids,
      strictly increasing in store order, and every session but the newest
      ended, so at most one is open. */
  predicate Wf(store: seq<Session>) {
    IdsCanonical(store) && KeysIncreasing(store) && OnlyNewestOpen(store)
  }

  datatype StoreError =
    | CreateFailed(createError: Home.CreateError)
    | SubmitFailed(submitError: Chat.SubmitError)
    | ModifyFailed(modifyError: Navigation.ModifyError)

  /** "Start Chat With ReX" on the home page: PATCH the ended previous
      session, then POST the new one. */
  function StartChat(store: seq<Session>, today: CalendarDate): (r: Result<seq<Session>, StoreError>)
    ensures r.Failure? <==>
      Home.EndsPrevious(Reverse(store)) && !HasId(Reverse(store), Home.PreviousId(Reverse(store)))
    ensures r.Success? ==>
      && |r.value| == |store| + 1
      && r.value[|store|] == Session(Home.NextId(Reverse(store)), FormatDate(today), [Home.IntroTurn], false)
    ensures r.Success? ==> forall i | 0 <= i < |store| ::
      r.value[i].id == store[i].id && (r.value[i] == store[i] || r.value[i].isSessionEnded)
    ensures r.Success? ==> forall i | 0 <= i < |store| ::
      r.value[i] ==
        if Home.EndsPrevious(Reverse(store)) && store[i].id == Home.PreviousId(Reverse(store))
        then Reverse(store)[FirstWithId(Reverse(store), Home.PreviousId(Reverse(store))).value].(isSessionEnded := true)
        else store[i]
  {
    match Home.Create(Reverse(store), today)
    case Failure(e) => Failure(CreateFailed(e))
    case Success(c) =>
      var patched := if c.previous.Some? then ReplaceById(store, c.previous.value.id, c.previous.value) else store;
      Success(patched + [c.session])
  }

  /** Sending a prompt on the chat page: PATCH the updated session. */
  function SubmitTurn(store: seq<Session>, routeId: string, prompt: string, completion: Option<string>, today: CalendarDate)
    : (r: Result<seq<Session>, StoreError>)
    ensures r.Failure? <==> Chat.FindCurrent(store, routeId).None?
    ensures r.Success? ==> |r.value| == |store|
    ensures r.Success? ==> forall i | 0 <= i < |store| && store[i].id != routeId :: r.value[i] == store[i]
    ensures r.Success? ==> forall i | 0 <= i < |store| && store[i].id == routeId ::
      && r.value[i].id == store[i].id
      && r.value[i].chats == Chat.FindCurrent(store, routeId).value.chats + [Chat.TurnOf(prompt, completion)]
      && r.value[i].isSessionEnded == Chat.FindCurrent(store, routeId).value.isSessionEnded
      && r.value[i].date == FormatDate(today)
  {
    match Chat.Submit(store, routeId, prompt, completion, today)
    case Failure(e) => Failure(SubmitFailed(e))
    case Success(u) =>
      var cur := Chat.FindCurrent(store, routeId).value;
      assert u.chats == cur.chats + [Chat.TurnOf(prompt, completion)] by {
        assert u.chats == u.chats[..|cur.chats|] + [u.chats[|cur.chats|]];
      }
      Success(ReplaceById(store, routeId, u))
  }

  /** "End" (or "Clear") in the navigation bar: PUT the rewritten record.
      The empty record written without a route id matches no stored id. */
  function ModifyChat(store: seq<Session>, key: string, routeId: Option<string>, today: CalendarDate)
    : (r: Result<seq<Session>, StoreError>)
    ensures r.Failure? <==> Navigation.HasRouteId(routeId) && key != "Clear" && !HasId(store, routeId.value)
    ensures r.Success? ==> |r.value| == |store|
    ensures r.Success? ==> forall i | 0 <= i < |store| :: r.value[i].id == store[i].id
    ensures r.Success? ==> forall i | 0 <= i < |store| && !(Navigation.HasRouteId(routeId) && store[i].id == routeId.value) ::
      r.value[i] == store[i]
    ensures r.Success? && Navigation.HasRouteId(routeId) ==> forall i | 0 <= i < |store| && store[i].id == routeId.value ::
      && r.value[i].date == FormatDate(today)
      && (r.value[i].isSessionEnded <==> key == "End")
      && (key == "Clear" ==> r.value[i].chats == [])
      && (key != "Clear" ==> r.value[i].chats == store[FirstWithId(store, routeId.value).value].chats)
  {
    match Navigation.Modify(key, routeId, store, today)
    case Failure(e) => Failure(ModifyFailed(e))
    case Success(w) =>
      if w.EmptyRecord? then Success(store) else Success(ReplaceById(store, w.session.id, w.session))
  }

  /** Deleting from an ended-chats list: DELETE the record. The store keeps
      the order of the records it keeps, as the page's own filter does
      (`Home.DeleteKeepsOrder`). */
  function DeleteChat(store: seq<Session>, id: string): (r: seq<Session>)
    ensures !HasId(r, id)
    ensures forall s | s in store && s.id != id :: s in r
    ensures forall s | s in r :: s in store
    ensures |r| == |store| <==> !HasId(store, id)
    ensures r == Home.Delete(store, id)
  {
    RemoveById(store, id)
  }

  /** In a well-formed store two positions hold different id numbers. */
  lemma KeysDistinct(store: seq<Session>, i: nat, j: nat)
    requires Wf(store) && i < |store| && j < |store|
    ensures i == j || (Key(store[i]) != Key(store[j]) && store[i].id != store[j].id)
  {
    if i < j {
      assert Key(store[i]) < Key(store[j]);
    } else if j < i {
      assert Key(store[j]) < Key(store[i]);
    }
  }

  /** A rewrite that keeps every id and never reopens a session keeps the
      store well formed. */
  lemma WfKeptByRewrite(a: seq<Session>, b: seq<Session>)
    requires Wf(a) && |a| == |b|
    requires forall i | 0 <= i < |a| :: b[i].id == a[i].id && (a[i].isSessionEnded ==> b[i].isSessionEnded)
    ensures Wf(b)
  {
    assert Keys(b) == Keys(a);
  }

  lemma IncreasingTail(ks: seq<int>)
    requires Increasing(ks) && |ks| > 0
    ensures Increasing(ks[1..])
  {
    assert forall i | 0 <= i < |ks| - 1 :: ks[1..][i] == ks[i + 1];
  }

  lemma IdsCanonicalTail(store: seq<Session>)
    requires IdsCanonical(store) && |store| > 0
    ensures IdsCanonical(store[1..])
  {
    assert forall i | 0 <= i < |store| - 1 :: store[1..][i] == store[i + 1];
  }

  lemma OnlyNewestOpenTail(store: seq<Session>)
    requires OnlyNewestOpen(store) && |store| > 0
    ensures OnlyNewestOpen(store[1..])
  {
    assert forall i | 0 <= i < |store| - 2 :: store[1..][i] == store[i + 1];
  }

  lemma WfTail(store: seq<Session>)
    requires Wf(store) && |store| > 0
    ensures Wf(store[1..])
  {
    IdsCanonicalTail(store);
    OnlyNewestOpenTail(store);
    IncreasingTail(Keys(store));
    assert Keys(store[1..]) == Keys(store)[1..];
  }

  lemma IncreasingSnoc(ks: seq<int>, k: int)
    requires Increasing(ks)
    requires forall j | 0 <= j < |ks| :: ks[j] < k
    ensures Increasing(ks + [k])
  {
  }

  /** Appending an open session numbered above every stored one to a store
      whose sessions are all ended keeps it well formed. */
  lemma WfSnoc(front: seq<Session>, s: Session)
    requires Wf(front)
    requires forall i | 0 <= i < |front| :: front[i].isSessionEnded && Key(front[i]) < Key(s)
    requires IsCanonical(s.id) && Key(s) >= 1
    ensures Wf(front + [s])
  {
    IdsCanonicalSnoc(front, s);
    OnlyNewestOpenSnoc(front, s);
    KeysSnoc(front, s);
    IncreasingSnoc(Keys(front), Key(s));
  }

  lemma IdsCanonicalSnoc(front: seq<Session>, s: Session)
    requires IdsCanonical(front) && IsCanonical(s.id) && Key(s) >= 1
    ensures IdsCanonical(front + [s])
  {
    var r := front + [s];
    assert forall i | 0 <= i < |front| :: r[i] == front[i];
  }

  lemma OnlyNewestOpenSnoc(front: seq<Session>, s: Session)
    requires forall i | 0 <= i < |front| :: front[i].isSessionEnded
    ensures OnlyNewestOpen(front + [s])
  {
    var r := front + [s];
    assert forall i | 0 <= i < |front| :: r[i] == front[i];
  }

  lemma KeysSnoc(front: seq<Session>, s: Session)
    ensures Keys(front + [s]) == Keys(front) + [Key(s)]
  {
    var r := front + [s];
    assert forall i | 0 <= i < |front| :: r[i] == front[i];
  }

  lemma IncreasingCons(k: int, ks: seq<int>)
    requires Increasing(ks)
    requires forall j | 0 <= j < |ks| :: k < ks[j]
    ensures Increasing([k] + ks)
  {
    var r := [k] + ks;
    assert forall j | 1 <= j < |r| :: r[j] == ks[j - 1];
  }

  lemma ConsKeysIncreasing(x: Session, rest: seq<Session>)
    requires KeysIncreasing(rest)
    requires forall j | 0 <= j < |rest| :: Key(x) < Key(rest[j])
    ensures KeysIncreasing([x] + rest)
  {
    var r := [x] + rest;
    assert Keys(r) == [Key(x)] + Keys(rest) by {
      assert forall j | 1 <= j < |r| :: r[j] == rest[j - 1];
    }
    IncreasingCons(Key(x), Keys(rest));
  }

  lemma ConsOnlyNewestOpen(x: Session, rest: seq<Session>)
    requires OnlyNewestOpen(rest)
    requires |rest| > 0 ==> x.isSessionEnded
    ensures OnlyNewestOpen([x] + rest)
  {
    var r := [x] + rest;
    forall i | 0 <= i < |r| - 1
      ensures r[i].isSessionEnded
    {
      if i > 0 {
        assert r[i] == rest[i - 1];
      }
    }
  }

  /** A session in front of a well-formed store keeps it well formed when
      its id is canonical and below every later one, and it is ended
      unless it is alone. */
  lemma WfCons(x: Session, rest: seq<Session>)
    requires Wf(rest)
    requires IsCanonical(x.id) && Key(x) >= 1
    requires forall j | 0 <= j < |rest| :: Key(x) < Key(rest[j])
    requires |rest| > 0 ==> x.isSessionEnded
    ensures Wf([x] + rest)
  {
    var r := [x] + rest;
    forall i | 0 <= i < |r|
      ensures IsCanonical(r[i].id) && Key(r[i]) >= 1
    {
      if i > 0 {
        assert r[i] == rest[i - 1];
      }
    }
    ConsKeysIncreasing(x, rest);
    ConsOnlyNewestOpen(x, rest);
  }

  lemma {:induction false} AllEndedNoneActive(ss: seq<Session>)
    requires forall i | 0 <= i < |ss| :: ss[i].isSessionEnded
    ensures Active(ss) == []
  {
    if |ss| > 0 {
      assert forall i | 0 <= i < |ss| - 1 :: ss[1..][i] == ss[i + 1];
      AllEndedNoneActive(ss[1..]);
    }
  }

  lemma OnlyNewestOpenAtMostOneActive(ss: seq<Session>)
    requires OnlyNewestOpen(ss)
    ensures |Active(ss)| <= 1
  {
    if |ss| > 0 {
      var n := |ss|;
      var front := ss[..n - 1];
      assert forall i | 0 <= i < n - 1 :: front[i].isSessionEnded;
      AllEndedNoneActive(front);
      assert ss == front + [ss[n - 1]];
      ActiveAppend(front, [ss[n - 1]]);
    }
  }

  /** In a well-formed store at most one session is open. */
  lemma WfAtMostOneActive(store: seq<Session>)
    requires Wf(store)
    ensures |Active(store)| <= 1
  {
    OnlyNewestOpenAtMostOneActive(store);
  }

  /** The id a start gives a new session when the newest has number `k`. */
  lemma NextIdAfter(store: seq<Session>)
    requires Wf(store) && |store| > 0
    ensures Reverse(store)[0] == store[|store| - 1]
    ensures Home.HeadNumber(Reverse(store)) == Some(Key(store[|store| - 1]))
    ensures Home.EndsPrevious(Reverse(store))
    ensures Home.NextId(Reverse(store)) == NatToString(Key(store[|store| - 1]) + 1)
  {
    var k := Key(store[|store| - 1]);
    var r := Home.NextId(Reverse(store));
    NatToStringIsCanonical(k + 1);
  }

  /** On a non-empty well-formed store a start ends the newest session in
      place and appends the new one. */
  lemma StartChatShape(store: seq<Session>, today: CalendarDate)
    requires Wf(store) && |store| > 0
    ensures
      var n := |store|;
      var id := NatToString(Key(store[n - 1]) + 1);
      StartChat(store, today)
        == Success(store[..n - 1] + [store[n - 1].(isSessionEnded := true)]
                   + [Started(id, today)])
  {
    var n := |store|;
    var last := store[n - 1];
    var local := Reverse(store);
    NextIdAfter(store);
    Home.CreateWithCanonicalHead(local, today);
    var p := last.(isSessionEnded := true);
    ReplaceLastById(store, p);
  }

  /** Replacing the newest session by a record with its id touches only
      the last position. */
  lemma ReplaceLastById(store: seq<Session>, p: Session)
    requires Wf(store) && |store| > 0 && p.id == store[|store| - 1].id
    ensures ReplaceById(store, p.id, p) == store[..|store| - 1] + [p]
  {
    var n := |store|;
    forall i | 0 <= i < n - 1
      ensures store[i].id != p.id
    {
      KeysDistinct(store, i, n - 1);
    }
    ReplaceOnlyLast(store, p);
  }

  lemma ReplaceOnlyLast(ss: seq<Session>, p: Session)
    requires |ss| > 0 && p.id == ss[|ss| - 1].id
    requires forall i | 0 <= i < |ss| - 1 :: ss[i].id != p.id
    ensures ReplaceById(ss, p.id, p) == ss[..|ss| - 1] + [p]
  {
    var n := |ss|;
    var patched := ReplaceById(ss, p.id, p);
    var expected := ss[..n - 1] + [p];
    assert |patched| == |expected|;
    forall i | 0 <= i < n
      ensures patched[i] == expected[i]
    {
      if i < n - 1 {
        assert patched[i] == ss[i];
      }
    }
  }

  /** Ending the newest session and appending one numbered above it keeps
      the store well formed. */
  lemma WfAfterStart(store: seq<Session>, s: Session)
    requires Wf(store) && |store| > 0
    requires IsCanonical(s.id) && Key(s) == Key(store[|store| - 1]) + 1
    ensures Wf(store[..|store| - 1] + [store[|store| - 1].(isSessionEnded := true)] + [s])
  {
    var n := |store|;
    var patched := store[..n - 1] + [store[n - 1].(isSessionEnded := true)];
    WfKeptByRewrite(store, patched);
    forall i | 0 <= i < n
      ensures patched[i].isSessionEnded && Key(patched[i]) < Key(s)
    {
      assert Keys(store)[i] <= Keys(store)[n - 1];
    }
    WfSnoc(patched, s);
  }

  /** The session a start appends. */
  function Started(id: string, today: CalendarDate): Session {
    Session(id, FormatDate(today), [Home.IntroTurn], false)
  }

  lemma StartChatOnEmpty(today: CalendarDate)
    ensures StartChat([], today) == Success([Started("1", today)])
    ensures Key(Started("1", today)) == 1 && Wf([Started("1", today)])
  {
    NatToStringIsCanonical(1);
    assert NatToString(1) == "1";
    assert Reverse([]) == [];
    var c := Home.Create([], today).value;
    assert c.previous.None? && c.session == Started("1", today);
    assert [] + [c.session] == [c.session];
  }

  /** The store after a start, stated directly: "1" opens an empty store;
      otherwise the newest session is ended in place and a session
      numbered one above it is appended. */
  function AfterStart(store: seq<Session>, today: CalendarDate): seq<Session> {
    if |store| == 0 then [Started("1", today)]
    else
      var n := |store|;
      store[..n - 1] + [store[n - 1].(isSessionEnded := true)] + [Started(NatToString(Key(store[n - 1]) + 1), today)]
  }

  /** On a well-formed store the home page's start handler, composed with
      the two writes it issues, always succeeds and leaves `AfterStart`. */
  lemma StartChatIsAfterStart(store: seq<Session>, today: CalendarDate)
    requires Wf(store)
    ensures StartChat(store, today) == Success(AfterStart(store, today))
  {
    if |store| == 0 {
      StartChatOnEmpty(today);
    } else {
      StartChatShape(store, today);
    }
  }

  /** A start keeps the store well formed, grows it by exactly one open
      session holding the introduction and numbered one above the newest
      id ("1" on an empty store), ends the previously newest session, and
      leaves every other session as it was. */
  lemma AfterStartKeepsWf(store: seq<Session>, today: CalendarDate)
    requires Wf(store)
    ensures
      var r := AfterStart(store, today);
      var s := r[|store|];
      && Wf(r)
      && |r| == |store| + 1
      && !s.isSessionEnded
      && s.chats == [Home.IntroTurn]
      && s.date == FormatDate(today)
      && Key(s) == (if |store| == 0 then 1 else Key(store[|store| - 1]) + 1)
      && (|store| > 0 ==> r[|store| - 1] == store[|store| - 1].(isSessionEnded := true))
      && (forall i | 0 <= i < |store| - 1 :: r[i] == store[i])
  {
    if |store| == 0 {
      StartChatOnEmpty(today);
    } else {
      var n := |store|;
      var k := Key(store[n - 1]);
      var s := Started(NatToString(k + 1), today);
      NatToStringIsCanonical(k + 1);
      WfAfterStart(store, s);
      var r := AfterStart(store, today);
      assert r == store[..n - 1] + [store[n - 1].(isSessionEnded := true)] + [s];
      assert forall i | 0 <= i < n - 1 :: r[i] == store[i];
    }
  }

  /** Submitting a prompt on a well-formed store keeps it well formed: the
      record written back keeps the id and the ended flag of the session
      it replaces. */
  lemma SubmitTurnKeepsWf(store: seq<Session>, routeId: string, prompt: string, completion: Option<string>, today: CalendarDate)
    requires Wf(store)
    ensures SubmitTurn(store, routeId, prompt, completion, today).Success? ==>
      Wf(SubmitTurn(store, routeId, prompt, completion, today).value)
  {
    if Chat.FindCurrent(store, routeId).None? {
      return;
    }
    var u := Chat.Submit(store, routeId, prompt, completion, today).value;
    var ci := Chat.CurrentIndex(store, routeId).value;
    var r := ReplaceById(store, routeId, u);
    forall i | 0 <= i < |store| && store[i].id == routeId
      ensures r[i].id == store[i].id && r[i].isSessionEnded == store[i].isSessionEnded
    {
      KeysDistinct(store, i, ci);
    }
    WfKeptByRewrite(store, r);
  }

  /** Submitting a prompt for a stored session appends exactly one turn to
      that session's chats, keeps the earlier turns, and changes no other
      session. */
  lemma SubmitTurnAppends(store: seq<Session>, i: nat, prompt: string, completion: Option<string>, today: CalendarDate)
    requires Wf(store) && i < |store|
    ensures SubmitTurn(store, store[i].id, prompt, completion, today).Success?
    ensures
      var r := SubmitTurn(store, store[i].id, prompt, completion, today).value;
      && |r| == |store|
      && r[i].chats == store[i].chats + [Chat.TurnOf(prompt, completion)]
      && r[i].id == store[i].id
      && r[i].isSessionEnded == store[i].isSessionEnded
      && forall j | 0 <= j < |store| && j != i :: r[j] == store[j]
  {
    var id := store[i].id;
    assert Chat.CurrentIndex(store, id).Some?;
    var ci := Chat.CurrentIndex(store, id).value;
    KeysDistinct(store, i, ci);
    var u := Chat.Submit(store, id, prompt, completion, today).value;
    assert u.chats == u.chats[..|store[i].chats|] + [u.chats[|store[i].chats|]];
    forall j | 0 <= j < |store| && j != i
      ensures store[j].id != id
    {
      KeysDistinct(store, i, j);
    }
  }

  /** Ending a chat keeps a well-formed store well formed. */
  lemma EndChatKeepsWf(store: seq<Session>, routeId: Option<string>, today: CalendarDate)
    requires Wf(store)
    ensures ModifyChat(store, "End", routeId, today).Success? ==> Wf(ModifyChat(store, "End", routeId, today).value)
  {
    var r := ModifyChat(store, "End", routeId, today);
    if r.Success? {
      WfKeptByRewrite(store, r.value);
    }
  }

  /** Once a chat is ended, the chat page finds it ended and hides the
      prompt box. */
  lemma EndChatHidesInput(store: seq<Session>, routeId: string, today: CalendarDate)
    requires Wf(store) && routeId != ""
    ensures ModifyChat(store, "End", Some(routeId), today).Success? ==>
      !Chat.ShowInput(ModifyChat(store, "End", Some(routeId), today).value, routeId)
  {
    if !HasId(store, routeId) {
      return;
    }
    var r := ModifyChat(store, "End", Some(routeId), today).value;
    EndChatKeepsWf(store, Some(routeId), today);
    var i := FirstWithId(store, routeId).value;
    assert r[i].isSessionEnded;
    var cur := Chat.CurrentIndex(r, routeId);
    if cur.Some? {
      KeysDistinct(r, i, cur.value);
    }
  }

  /** Right after a start, the chat page for the new session finds it open
      and shows the prompt box. */
  lemma StartShowsInput(store: seq<Session>, today: CalendarDate)
    requires Wf(store)
    ensures StartChat(store, today).Success?
    ensures Chat.ShowInput(StartChat(store, today).value, StartChat(store, today).value[|store|].id)
  {
    StartChatIsAfterStart(store, today);
    AfterStartKeepsWf(store, today);
    var r := AfterStart(store, today);
    var n := |store|;
    assert ParseInt(r[n].id).Some?;
    forall i | 0 <= i < |r| && ParseInt(r[i].id) == ParseInt(r[n].id)
      ensures !r[i].isSessionEnded
    {
      KeysDistinct(r, i, n);
    }
  }

  /** The oldest session's number is below every later one. */
  lemma HeadBelowTail(store: seq<Session>)
    requires KeysIncreasing(store) && |store| > 0
    ensures forall s | s in store[1..] :: Key(store[0]) < Key(s)
  {
    forall s | s in store[1..]
      ensures Key(store[0]) < Key(s)
    {
      var m :| 0 <= m < |store| - 1 && store[1..][m] == s;
      assert Keys(store)[0] < Keys(store)[m + 1];
    }
  }

  /** Filtering out one id keeps a well-formed store well formed. */
  lemma {:induction false} WfRemoveById(store: seq<Session>, id: string)
    requires Wf(store)
    ensures Wf(RemoveById(store, id))
    decreases |store|
  {
    if |store| > 0 {
      var tail := store[1..];
      WfTail(store);
      WfRemoveById(tail, id);
      var rt := RemoveById(tail, id);
      if store[0].id != id {
        HeadBelowTail(store);
        assert forall j | 0 <= j < |rt| :: rt[j] in rt;
        WfCons(store[0], rt);
        assert RemoveById(store, id) == [store[0]] + rt;
      } else {
        assert RemoveById(store, id) == rt;
      }
    }
  }

  /** Deleting keeps a well-formed store well formed. */
  lemma DeleteChatKeepsWf(store: seq<Session>, id: string)
    requires Wf(store)
    ensures Wf(DeleteChat(store, id))
  {
    WfRemoveById(store, id);
  }

  /** After a delete, the chat page finds no session for that id. */
  lemma DeleteChatThenNotFound(store: seq<Session>, id: string)
    requires Wf(store) && IsCanonical(id)
    ensures Chat.FindCurrent(DeleteChat(store, id), id).None?
  {
    var r := DeleteChat(store, id);
    forall k | 0 <= k < |r|
      ensures ParseInt(r[k].id) != ParseInt(id)
    {
      assert r[k] in r;
      var m :| 0 <= m < |store| && store[m] == r[k];
      CanonicalParseInjective(r[k].id, id);
    }
  }

  /** "Clear" reopens an ended session, so unlike "End" it does not keep
      the store well formed: clearing the oldest chat while the newest is
      open leaves two sessions open. */
  lemma ClearBreaksWf(store: seq<Session>, today: CalendarDate)
    requires Wf(store) && |store| >= 2 && !store[|store| - 1].isSessionEnded
    ensures ModifyChat(store, "Clear", Some(store[0].id), today).Success?
    ensures
      var r := ModifyChat(store, "Clear", Some(store[0].id), today).value;
      && |r| == |store|
      && !r[0].isSessionEnded && r[0].chats == []
      && !r[|store| - 1].isSessionEnded
      && !Wf(r)
  {
    var id := store[0].id;
    var n := |store|;
    assert id != "";
    Navigation.ClearReopens(id, store, today);
    KeysDistinct(store, 0, n - 1);
    var r := ReplaceById(store, id, Session(id, FormatDate(today), [], false));
    assert !r[0].isSessionEnded && 0 < n - 1;
  }
}
