/** The chat page (src/pages/Chat/index.jsx): finding the session the route
    names, producing ReX's reply, and appending one turn. The completion
    service is opaque: its outcome arrives as a parameter, `None` standing
    for a call that threw. */
module Chat {
  import opened Wrappers
  import opened Text
  import opened Dates
  import opened Sessions

  const EmptyPromptReply := "Please enter prompt. It can't be empty."
  const CompletionErrorReply := "Error in fetch response from OpenAI. Please try again."

  /** Each session's id parsed as an integer, in list order. */
  function IdNumbers(ss: seq<Session>): (r: seq<Option<nat>>)
    ensures |r| == |ss|
    ensures forall i | 0 <= i < |ss| :: r[i] == ParseInt(ss[i].id)
  {
    if |ss| == 0 then [] else [ParseInt(ss[0].id)] + IdNumbers(ss[1..])
  }

  /** The first position holding `x`. */
  function IndexOf(xs: seq<Option<nat>>, x: Option<nat>): (r: Option<nat>)
    ensures r.Some? ==> r.value < |xs| && xs[r.value] == x
    ensures r.Some? ==> forall j | 0 <= j < r.value :: xs[j] != x
    ensures r.None? ==> forall j | 0 <= j < |xs| :: xs[j] != x
  {
    if |xs| == 0 then None
    else if xs[0] == x then Some(0)
    else match IndexOf(xs[1..], x)
      case None => None
      case Some(i) => Some(i + 1)
  }

  /** The position of the first session whose id, parsed as an integer,
      equals the route id parsed as an integer. `NaN === NaN` is false, so a
      route id that does not parse matches nothing. */
  function CurrentIndex(ss: seq<Session>, routeId: string): (r: Option<nat>)
    ensures r.Some? ==> r.value < |ss| && ParseInt(routeId).Some? && ParseInt(ss[r.value].id) == ParseInt(routeId)
    ensures r.Some? ==> forall j | 0 <= j < r.value :: ParseInt(ss[j].id) != ParseInt(routeId)
    ensures r.None? ==> ParseInt(routeId).None? || forall j | 0 <= j < |ss| :: ParseInt(ss[j].id) != ParseInt(routeId)
  {
    match ParseInt(routeId)
    case None => None
    case Some(_) => IndexOf(IdNumbers(ss), ParseInt(routeId))
  }

  /** `sessions.find(...)`: the current session, or `undefined`. */
  function FindCurrent(ss: seq<Session>, routeId: string): (r: Option<Session>)
    ensures r.Some? <==> CurrentIndex(ss, routeId).Some?
    ensures r.Some? ==> r.value == ss[CurrentIndex(ss, routeId).value]
  {
    match CurrentIndex(ss, routeId)
    case None => None
    case Some(i) => Some(ss[i])
  }

  /** `callOpenAIAPI`: an empty prompt gets the fixed prompt notice without
      the service being consulted; a failed call gets the fixed error
      notice; nothing is ever thrown. */
  function Reply(prompt: string, completion: Option<string>): (r: string)
    ensures prompt == "" ==> r == EmptyPromptReply
    ensures prompt != "" && completion.None? ==> r == CompletionErrorReply
    ensures prompt != "" && completion.Some? ==> r == completion.value
  {
    if prompt == "" then EmptyPromptReply
    else match completion
      case Some(text) => text
      case None => CompletionErrorReply
  }

  /** The service's outcome is irrelevant to an empty prompt. */
  lemma EmptyPromptIgnoresService(a: Option<string>, b: Option<string>)
    ensures Reply("", a) == Reply("", b) == EmptyPromptReply
  {
  }

  /** `thisSession.chats.push` on an `undefined` session throws; the
      handler alerts and writes nothing. */
  datatype SubmitError = NoCurrentSession

  /** The turn a submission adds. */
  function TurnOf(prompt: string, completion: Option<string>): Turn {
    Turn(Some(prompt), Single(Reply(prompt, completion)))
  }

  /** `handleSubmit`: the record PATCHed to the store. It keeps the current
      session's chats with exactly one turn `{user: prompt, ReX: reply}`
      appended, takes its id from the route, keeps `isSessionEnded`, and
      carries today's date. */
  function Submit(ss: seq<Session>, routeId: string, prompt: string, completion: Option<string>, today: CalendarDate)
    : (r: Result<Session, SubmitError>)
    ensures r.Failure? <==> FindCurrent(ss, routeId).None?
    ensures r.Success? ==>
      var cur := FindCurrent(ss, routeId).value;
      && r.value.id == routeId
      && r.value.date == FormatDate(today)
      && r.value.isSessionEnded == cur.isSessionEnded
      && |r.value.chats| == |cur.chats| + 1
      && r.value.chats[..|cur.chats|] == cur.chats
      && r.value.chats[|cur.chats|] == TurnOf(prompt, completion)
  {
    match FindCurrent(ss, routeId)
    case None => Failure(NoCurrentSession)
    case Some(cur) =>
      var chats := cur.chats + [TurnOf(prompt, completion)];
      assert chats[..|cur.chats|] == cur.chats;
      Success(Session(routeId, FormatDate(today), chats, cur.isSessionEnded))
  }

  /** The page's list after the store answers: only the entries whose id is
      the route id (compared as strings) take the stored record. */
  function UpdateLocal(ss: seq<Session>, routeId: string, stored: Session): (r: seq<Session>)
    ensures |r| == |ss|
    ensures forall i | 0 <= i < |ss| && ss[i].id != routeId :: r[i] == ss[i]
    ensures forall i | 0 <= i < |ss| && ss[i].id == routeId :: r[i] == stored
  {
    ReplaceById(ss, routeId, stored)
  }

  /** The prompt box is shown only for a session that was found and is
      still open: the route must parse, some session with that number must
      be open, and when every session with that number is open the box is
      shown. */
  function ShowInput(ss: seq<Session>, routeId: string): (r: bool)
    ensures r ==> ParseInt(routeId).Some?
    ensures r ==> exists i | 0 <= i < |ss| :: ParseInt(ss[i].id) == ParseInt(routeId) && !ss[i].isSessionEnded
    ensures ParseInt(routeId).Some?
      && (exists i | 0 <= i < |ss| :: ParseInt(ss[i].id) == ParseInt(routeId))
      && (forall i | 0 <= i < |ss| && ParseInt(ss[i].id) == ParseInt(routeId) :: !ss[i].isSessionEnded)
      ==> r
  {
    match FindCurrent(ss, routeId)
    case None => false
    case Some(current) => !current.isSessionEnded
  }

  /** The session that decides is the first one whose id parses to the
      route's number: the box is shown exactly when that one is open. */
  lemma ShowInputFirstMatch(ss: seq<Session>, routeId: string)
    ensures ShowInput(ss, routeId) <==>
      exists i | 0 <= i < |ss| ::
        && ParseInt(routeId).Some?
        && ParseInt(ss[i].id) == ParseInt(routeId)
        && (forall j | 0 <= j < i :: ParseInt(ss[j].id) != ParseInt(routeId))
        && !ss[i].isSessionEnded
  {
    var c := CurrentIndex(ss, routeId);
    if c.Some? {
      forall i | 0 <= i < |ss| && ParseInt(routeId).Some? && ParseInt(ss[i].id) == ParseInt(routeId)
          && (forall j | 0 <= j < i :: ParseInt(ss[j].id) != ParseInt(routeId))
        ensures i == c.value
      {
      }
    }
  }
}
