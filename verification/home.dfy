/** The home page (src/pages/Home/index.jsx): starting a chat, deleting an
    ended one, and the "Active Chats" / "Ended Chats" card lists. Its list
    is the fetched store reversed, so position 0 is the newest session. */
module Home {
  import opened Wrappers
  import opened Text
  import opened Dates
  import opened Sessions

  /** The two lines ReX opens every session with. */
  const IntroLines: seq<string> :=
    ["Hello User, I am ReX. \U{1F601}", "What aspect of your career would you like guidance on?"]

  /** The seeded first turn: ReX speaks, with a list of lines. */
  const IntroTurn := Turn(None, Lines(IntroLines))

  /** How many ended chats the home page may preview. */
  const EndedPreviewCount := 4

  /** The number the newest session's id parses to, if any. */
  function HeadNumber(ss: seq<Session>): Option<nat> {
    if |ss| == 0 then None else ParseInt(ss[0].id)
  }

  /** The id of the next session: "1" on an empty list, otherwise one more
      than the integer value of the first session's id. When that id does
      not parse, `NaN + 1` renders as "NaN". */
  function NextId(ss: seq<Session>): (r: string)
    ensures |ss| == 0 ==> r == "1"
    ensures HeadNumber(ss).Some? ==> IsCanonical(r) && ParseInt(r) == Some(HeadNumber(ss).value + 1)
    ensures |ss| > 0 && HeadNumber(ss).None? ==> r == "NaN"
  {
    if |ss| == 0 then "1"
    else match ParseInt(ss[0].id)
      case Some(n) => NatToStringIsCanonical(n + 1); NatToString(n + 1)
      case None => "NaN"
  }

  /** What a successful start leaves behind: the new session, the ended
      previous session written back (if any), and the page's list. */
  datatype Created = Created(session: Session, previous: Option<Session>, sessions: seq<Session>)

  /** Reading `activeSession[0].isSessionEnded` when no session has the
      previous id throws; the handler catches it and does nothing else. */
  datatype CreateError = PreviousSessionMissing(id: string)

  /** The session the previous id names is the one to end: it exists when
      the head id parses to a positive number. */
  predicate EndsPrevious(ss: seq<Session>) {
    HeadNumber(ss).Some? && HeadNumber(ss).value >= 1
  }

  /** The id of the session a start must end. */
  function PreviousId(ss: seq<Session>): string
    requires EndsPrevious(ss)
  {
    NatToString(HeadNumber(ss).value)
  }

  /** `handleSubmit`: compute the next id, end the session whose id is one
      less (when the new id is above 1), and append the new session, which
      is open and holds only the introduction. */
  function Create(ss: seq<Session>, today: CalendarDate): (r: Result<Created, CreateError>)
    ensures r.Failure? <==> EndsPrevious(ss) && !HasId(ss, PreviousId(ss))
    ensures r.Success? ==>
      var c := r.value;
      && c.session == Session(NextId(ss), FormatDate(today), [IntroTurn], false)
      && |c.sessions| == |ss| + 1
      && c.sessions[|ss|] == c.session
      && (c.previous.Some? <==> EndsPrevious(ss))
    ensures r.Success? && !EndsPrevious(ss) ==> r.value.sessions == ss + [r.value.session]
    ensures r.Success? && EndsPrevious(ss) ==>
      var i := FirstWithId(ss, PreviousId(ss)).value;
      && r.value.previous == Some(ss[i].(isSessionEnded := true))
      && r.value.sessions == ss[i := ss[i].(isSessionEnded := true)] + [r.value.session]
  {
    var id := NextId(ss);
    var started := Session(id, FormatDate(today), [IntroTurn], false);
    assert ParseInt(id).Some? && ParseInt(id).value > 1 <==> EndsPrevious(ss) by {
      if |ss| == 0 {
        NatToStringIsCanonical(1);
      }
    }
    if ParseInt(id).Some? && ParseInt(id).value > 1 then
      var lastId := NatToString(ParseInt(id).value - 1);
      match FirstWithId(ss, lastId)
      case None => Failure(PreviousSessionMissing(lastId))
      case Some(i) =>
        var prev := ss[i].(isSessionEnded := true);
        Success(Created(started, Some(prev), ss[i := prev] + [started]))
    else
      Success(Created(started, None, ss + [started]))
  }

  /** With a canonical head id, starting always succeeds, and the session
      it ends is the head itself. */
  lemma CreateWithCanonicalHead(ss: seq<Session>, today: CalendarDate)
    requires |ss| > 0 && IsCanonical(ss[0].id)
    ensures Create(ss, today).Success?
    ensures EndsPrevious(ss) ==> FirstWithId(ss, PreviousId(ss)) == Some(0)
  {
    if EndsPrevious(ss) {
      assert PreviousId(ss) == ss[0].id;
    }
  }

  /** With a canonical, positive head id, the page's list after a start is
      the head ended, the rest unchanged, and the new session last. */
  lemma CreateEndsHead(ss: seq<Session>, today: CalendarDate)
    requires |ss| > 0 && IsCanonical(ss[0].id) && EndsPrevious(ss)
    ensures Create(ss, today).Success?
    ensures Create(ss, today).value.sessions
      == [ss[0].(isSessionEnded := true)] + ss[1..] + [Create(ss, today).value.session]
  {
    assert PreviousId(ss) == ss[0].id;
    var r := Create(ss, today).value;
    assert r.sessions[..|ss|] == [ss[0].(isSessionEnded := true)] + ss[1..];
    assert r.sessions == r.sessions[..|ss|] + [r.session];
  }

  /** A new id is always numerically above the head id it was derived from. */
  lemma NextIdIncreases(ss: seq<Session>)
    requires HeadNumber(ss).Some?
    ensures ParseInt(NextId(ss)).Some? && ParseInt(NextId(ss)).value > HeadNumber(ss).value
  {
  }

  /** `handleDelete`: keep exactly the sessions whose id differs, in order. */
  function Delete(ss: seq<Session>, id: string): (r: seq<Session>)
    ensures !HasId(r, id)
    ensures forall s | s in ss && s.id != id :: s in r
    ensures forall s | s in r :: s in ss
    ensures !HasId(ss, id) ==> r == ss
  {
    if !HasId(ss, id) then RemoveByIdAbsent(ss, id); RemoveById(ss, id)
    else RemoveById(ss, id)
  }

  /** The filter keeps what stays in its original order: deleting from a
      concatenation deletes from each part, and a single session is kept
      exactly when its id differs. */
  lemma DeleteKeepsOrder(a: seq<Session>, b: seq<Session>, id: string)
    ensures Delete(a + b, id) == Delete(a, id) + Delete(b, id)
    ensures |a| == 1 ==> Delete(a, id) == (if a[0].id == id then [] else a)
  {
    RemoveByIdAppend(a, b, id);
    if |a| == 1 {
      assert a[1..] == [];
    }
  }

  /** What the page shows once its list is loaded. */
  datatype HomeView =
    | Welcome
    | Listing(active: seq<Card>, ended: seq<Card>)

  /** The welcome screen on an empty list; otherwise a card for every open
      session, and one for each ended session at position below 4. */
  function View(ss: seq<Session>): (r: HomeView)
    ensures r.Welcome? <==> |ss| == 0
    ensures r.Listing? ==> r.active == Cards(Active(ss))
    ensures r.Listing? ==> r.ended == Cards(Ended(ss[..Min(EndedPreviewCount, |ss|)]))
    ensures r.Listing? ==> |r.ended| <= EndedPreviewCount
  {
    if |ss| == 0 then Welcome
    else
      EndedBelowIsEndedPrefix(ss, EndedPreviewCount);
      Listing(Cards(Active(ss)), Cards(EndedBelow(ss, EndedPreviewCount)))
  }
}
