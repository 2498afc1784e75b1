/** The activity page (src/pages/Activity/index.jsx): the fetched list
    reversed, the bar chart's two series, and the open / ended lists. */
module Activity {
  import opened Dates
  import opened Sessions
  import ActivityChatHistory

  /** How many positions of the reversed list the ended list looks at. */
  const EndedListCount := 4

  /** The x-axis: one label per session, the text before the first comma of
      its date. */
  function DateLabels(ss: seq<Session>): (r: seq<string>)
    ensures |r| == |ss|
    ensures forall i | 0 <= i < |ss| :: r[i] == DateLabel(ss[i].date)
  {
    if |ss| == 0 then [] else [DateLabel(ss[0].date)] + DateLabels(ss[1..])
  }

  /** The bar heights: one per session, its number of chats. */
  function ChatLengths(ss: seq<Session>): (r: seq<nat>)
    ensures |r| == |ss|
    ensures forall i | 0 <= i < |ss| :: r[i] == |ss[i].chats|
  {
    if |ss| == 0 then [] else [|ss[0].chats|] + ChatLengths(ss[1..])
  }

  datatype Stats = Stats(sessions: seq<Session>, dates: seq<string>, lengths: seq<nat>)

  /** The fetch handler: `response.data.reverse()` reverses in place, so the
      two series are read off the reversed list and line up with it. */
  function Load(fetched: seq<Session>): (r: Stats)
    ensures |r.sessions| == |r.dates| == |r.lengths| == |fetched|
    ensures forall i | 0 <= i < |fetched| :: r.sessions[i] == fetched[|fetched| - 1 - i]
    ensures forall i | 0 <= i < |fetched| ::
      r.dates[i] == DateLabel(r.sessions[i].date) && r.lengths[i] == |r.sessions[i].chats|
  {
    var ss := Reverse(fetched);
    Stats(ss, DateLabels(ss), ChatLengths(ss))
  }

  /** For sessions whose dates the pages formatted, the chart labels are
      "Mon d". */
  lemma LoadLabelsOfFormattedDates(fetched: seq<Session>, stamps: seq<CalendarDate>)
    requires |stamps| == |fetched|
    requires forall i | 0 <= i < |fetched| :: fetched[i].date == FormatDate(stamps[i])
    ensures forall i | 0 <= i < |fetched| ::
      var d := stamps[|fetched| - 1 - i];
      Load(fetched).dates[i] == Months[d.month] + " " + Text.NatToString(d.day)
  {
    forall i | 0 <= i < |fetched|
      ensures Load(fetched).dates[i]
        == Months[stamps[|fetched| - 1 - i].month] + " " + Text.NatToString(stamps[|fetched| - 1 - i].day)
    {
      DateLabelOfFormatDate(stamps[|fetched| - 1 - i]);
    }
  }

  function Entries(ss: seq<Session>): (r: seq<ActivityChatHistory.Entry>)
    ensures |r| == |ss|
    ensures forall i | 0 <= i < |ss| :: r[i] == ActivityChatHistory.Render(ss[i].date, |ss[i].chats|)
  {
    if |ss| == 0 then []
    else [ActivityChatHistory.Render(ss[0].date, |ss[0].chats|)] + Entries(ss[1..])
  }

  datatype Lists = Lists(active: seq<ActivityChatHistory.Entry>, ended: seq<ActivityChatHistory.Entry>)

  /** "Active Chat:" lists every open session; "Ended Chats:" lists an ended
      session only when its position in the list is below 4. */
  function SessionLists(ss: seq<Session>): (r: Lists)
    ensures r.active == Entries(Active(ss))
    ensures r.ended == Entries(Ended(ss[..Min(EndedListCount, |ss|)]))
    ensures |r.ended| <= EndedListCount
  {
    EndedBelowIsEndedPrefix(ss, EndedListCount);
    Lists(Entries(Active(ss)), Entries(EndedBelow(ss, EndedListCount)))
  }
}
