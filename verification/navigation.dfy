/** The navigation bar's session actions (src/components/Navigation/index.jsx):
    `modifySession("End")` and `modifySession("Clear")` rewrite the record
    the route names and PUT it back. */
module Navigation {
  import opened Wrappers
  import opened Dates
  import opened Sessions

  /** The body PUT to the store: the empty object when there is no route
      id, otherwise a full session record. */
  datatype Written = EmptyRecord | Record(session: Session)

  /** `filter(...)[0].chats` on an empty filter throws. */
  datatype ModifyError = StoredSessionMissing(id: string)

  /** The route parameter is used only when it is truthy: present and not
      the empty string. */
  predicate HasRouteId(routeId: Option<string>) {
    routeId.Some? && routeId.value != ""
  }

  /** `modifySession(key)` over the freshly fetched list. "Clear" empties
      the chats without looking the session up; any other key keeps the
      chats of the first stored session with the route id and fails when
      there is none. Only "End" leaves the session ended; every other key,
      "Clear" included, sets `isSessionEnded` to false. */
  function Modify(key: string, routeId: Option<string>, fetched: seq<Session>, today: CalendarDate)
    : (r: Result<Written, ModifyError>)
    ensures !HasRouteId(routeId) ==> r == Success(EmptyRecord)
    ensures r.Failure? <==> HasRouteId(routeId) && key != "Clear" && !HasId(fetched, routeId.value)
    ensures r.Success? && HasRouteId(routeId) ==>
      && r.value.Record?
      && r.value.session.id == routeId.value
      && r.value.session.date == FormatDate(today)
      && (r.value.session.isSessionEnded <==> key == "End")
    ensures r.Success? && HasRouteId(routeId) && key == "Clear" ==> r.value.session.chats == []
    ensures r.Success? && HasRouteId(routeId) && key != "Clear" ==>
      r.value.session.chats == fetched[FirstWithId(fetched, routeId.value).value].chats
  {
    if !HasRouteId(routeId) then Success(EmptyRecord)
    else
      var id := routeId.value;
      var chats: Result<seq<Turn>, ModifyError> :=
        if key == "Clear" then Success([])
        else match FirstWithId(fetched, id)
          case None => Failure(StoredSessionMissing(id))
          case Some(i) => Success(fetched[i].chats);
      match chats
      case Failure(e) => Failure(e)
      case Success(cs) => Success(Record(Session(id, FormatDate(today), cs, key == "End")))
  }

  /** "End" keeps every turn and ends the session, and succeeds exactly when
      the store holds the route id. */
  lemma EndKeepsChats(routeId: string, fetched: seq<Session>, today: CalendarDate, i: nat)
    requires routeId != "" && i < |fetched| && fetched[i].id == routeId
    requires forall j | 0 <= j < i :: fetched[j].id != routeId
    ensures Modify("End", Some(routeId), fetched, today)
      == Success(Record(Session(routeId, FormatDate(today), fetched[i].chats, true)))
  {
    assert HasId(fetched, routeId);
    assert FirstWithId(fetched, routeId) == Some(i);
  }

  /** "Clear" always succeeds with no chats and an open session, whatever
      the store holds and whether or not the session had ended. */
  lemma ClearReopens(routeId: string, fetched: seq<Session>, today: CalendarDate)
    requires routeId != ""
    ensures Modify("Clear", Some(routeId), fetched, today)
      == Success(Record(Session(routeId, FormatDate(today), [], false)))
  {
  }

  /** The page's list after the write: only entries with the route id take
      the written record. */
  function UpdateLocal(ss: seq<Session>, routeId: Option<string>, w: Written): (r: seq<Session>)
    ensures |r| == |ss|
    ensures !HasRouteId(routeId) || w.EmptyRecord? ==> r == ss
    ensures HasRouteId(routeId) && w.Record? ==>
      forall i | 0 <= i < |ss| :: r[i] == (if ss[i].id == routeId.value then w.session else ss[i])
  {
    if HasRouteId(routeId) && w.Record? then ReplaceById(ss, routeId.value, w.session) else ss
  }
}
