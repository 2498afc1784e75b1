/** The "Ended Chats" page (src/pages/EndedChats/index.jsx): every ended
    session, in store order, with a delete action. */
module EndedChats {
  import opened Wrappers
  import opened Text
  import opened Sessions

  /** The fetched list replaces the page's list only when the response and
      its data are truthy; `None` stands for a falsy one. An empty array is
      truthy, so `Some([])` does replace it. */
  function Load(current: seq<Session>, response: Option<seq<Session>>): (r: seq<Session>)
    ensures response.None? ==> r == current
    ensures response.Some? ==> r == response.value
  {
    match response
    case None => current
    case Some(data) => data
  }

  /** The id `handleDelete` receives, before `id.toString()`. */
  datatype IdValue = IdText(text: string) | IdNumber(number: nat)

  function IdToString(v: IdValue): (r: string)
    ensures v.IdNumber? ==> ParseInt(r) == Some(v.number) && IsCanonical(r)
    ensures v.IdText? ==> r == v.text
  {
    match v
    case IdText(t) => t
    case IdNumber(n) => NatToStringIsCanonical(n); NatToString(n)
  }

  /** `handleDelete`: convert the id to a string and keep exactly the
      sessions whose id differs from it, in their original order. */
  function Delete(ss: seq<Session>, id: IdValue): (r: seq<Session>)
    ensures !HasId(r, IdToString(id))
    ensures forall s | s in ss && s.id != IdToString(id) :: s in r
    ensures forall s | s in r :: s in ss
    ensures |r| == |ss| <==> !HasId(ss, IdToString(id))
  {
    RemoveById(ss, IdToString(id))
  }

  /** A numeric id deletes the session whose id is its decimal string. */
  lemma DeleteNumericId(ss: seq<Session>, n: nat)
    ensures Delete(ss, IdNumber(n)) == Delete(ss, IdText(NatToString(n)))
  {
  }

  /** The filter keeps what stays in its original order: deleting from a
      concatenation deletes from each part, and a single session is kept
      exactly when its id differs from the id's text. */
  lemma DeleteKeepsOrder(a: seq<Session>, b: seq<Session>, id: IdValue)
    ensures Delete(a + b, id) == Delete(a, id) + Delete(b, id)
    ensures |a| == 1 ==> Delete(a, id) == (if a[0].id == IdToString(id) then [] else a)
  {
    RemoveByIdAppend(a, b, IdToString(id));
    if |a| == 1 {
      assert a[1..] == [];
    }
  }

  /** One card per ended session, in store order, with no limit on how
      many. */
  function Listing(ss: seq<Session>): (r: seq<Card>)
    ensures r == Cards(Ended(ss))
    ensures |r| == |Ended(ss)|
    ensures forall s | s in ss && s.isSessionEnded :: CardOf(s) in r
    ensures forall c | c in r :: c.sessionEnded
  {
    var ended := Ended(ss);
    var r := Cards(ended);
    assert forall s | s in ended :: CardOf(s) in r by {
      forall s | s in ended
        ensures CardOf(s) in r
      {
        var i :| 0 <= i < |ended| && ended[i] == s;
        assert r[i] == CardOf(s);
      }
    }
    r
  }
}
