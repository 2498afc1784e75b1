/** One entry of the activity page's session lists
    (src/components/ActivityChatHistory/index.jsx). */
module ActivityChatHistory {
  import opened Wrappers
  import opened Text

  datatype Entry = Entry(title: string, countText: string)

  const TitlePrefix := "ReX - "

  /** `ReX - {date}`. */
  function Title(date: string): (r: string)
    ensures |r| == |TitlePrefix| + |date|
    ensures r[..|TitlePrefix|] == TitlePrefix && r[|TitlePrefix|..] == date
  {
    TitlePrefix + date
  }

  /** "<n> Messages" when `n > 1`, else "<n> Message" (zero included). */
  function MessageLabel(n: nat): (r: string)
    ensures NatToString(n) <= r
    ensures r[|NatToString(n)|..] == " Message" || r[|NatToString(n)|..] == " Messages"
    ensures r[|r| - 1] == 's' <==> n > 1
  {
    NatToString(n) + (if n > 1 then " Messages" else " Message")
  }

  /** The label reads back as the count it shows. */
  lemma ParseMessageLabel(n: nat)
    ensures ParseInt(MessageLabel(n)) == Some(n)
  {
    ParseIntOfNatToString(n, if n > 1 then " Messages" else " Message");
  }

  function Render(date: string, chatsLength: nat): (r: Entry)
    ensures r.title == Title(date) && r.countText == MessageLabel(chatsLength)
  {
    Entry(Title(date), MessageLabel(chatsLength))
  }
}
