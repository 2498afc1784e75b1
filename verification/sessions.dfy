/** The session records the document store keeps, and the list operations
    every page performs on them (`filter`, `map`, `find`, `reverse`). */
module Sessions {
  import opened Wrappers

  /** What ReX said in a turn: one reply string, or the list of lines the
      seeded introduction holds. */
  datatype ReXContent = Single(text: string) | Lines(lines: seq<string>)

  /** One entry of `chats`: the seeded introduction has no `user` field;
      every submitted turn has both. */
  datatype Turn = Turn(user: Option<string>, rex: ReXContent)

  datatype Session = Session(id: string, date: string, chats: seq<Turn>, isSessionEnded: bool)

  /** What a chat-history card shows for one session. */
  datatype Card = Card(id: string, date: string, lastChatText: ReXContent, sessionEnded: bool)

  /** `.slice(0, 100)` in the previews. */
  const PreviewLimit := 100

  function Min(a: int, b: int): int {
    if a < b then a else b
  }

  function ContentLength(c: ReXContent): nat {
    match c
    case Single(t) => |t|
    case Lines(ls) => |ls|
  }

  /** `c` is a prefix of `of`, of the same shape. */
  predicate ContentPrefix(c: ReXContent, of: ReXContent) {
    match (c, of)
    case (Single(a), Single(b)) => a <= b
    case (Lines(a), Lines(b)) => a <= b
    case _ => false
  }

  /** `.slice(0, n)` on a string or on an array. */
  function Truncate(c: ReXContent, n: nat): (r: ReXContent)
    ensures ContentPrefix(r, c)
    ensures ContentLength(r) == Min(n, ContentLength(c))
  {
    match c
    case Single(t) => Single(t[..Min(n, |t|)])
    case Lines(ls) => Lines(ls[..Min(n, |ls|)])
  }

  /** The preview under a card: the last chat's ReX content cut to its
      first 100 elements, or the empty string for a session without chats. */
  function LastChatText(s: Session): (r: ReXContent)
    ensures |s.chats| == 0 ==> r == Single("")
    ensures |s.chats| > 0 ==>
      ContentPrefix(r, s.chats[|s.chats| - 1].rex)
      && ContentLength(r) == Min(PreviewLimit, ContentLength(s.chats[|s.chats| - 1].rex))
  {
    if |s.chats| > 0 then Truncate(s.chats[|s.chats| - 1].rex, PreviewLimit) else Single("")
  }

  function CardOf(s: Session): Card {
    Card(s.id, s.date, LastChatText(s), s.isSessionEnded)
  }

  /** One card per session, in list order. */
  function Cards(ss: seq<Session>): (r: seq<Card>)
    ensures |r| == |ss|
    ensures forall i | 0 <= i < |ss| :: r[i] == CardOf(ss[i])
  {
    if |ss| == 0 then [] else [CardOf(ss[0])] + Cards(ss[1..])
  }

  /** `Array.prototype.reverse`. */
  function Reverse(ss: seq<Session>): (r: seq<Session>)
    ensures |r| == |ss|
    ensures forall i | 0 <= i < |ss| :: r[i] == ss[|ss| - 1 - i]
  {
    if |ss| == 0 then [] else Reverse(ss[1..]) + [ss[0]]
  }

  /** The sessions still open, in list order. */
  function Active(ss: seq<Session>): (r: seq<Session>)
    ensures |r| <= |ss|
    ensures forall s | s in r :: s in ss && !s.isSessionEnded
    ensures forall s | s in ss && !s.isSessionEnded :: s in r
  {
    if |ss| == 0 then []
    else (if ss[0].isSessionEnded then [] else [ss[0]]) + Active(ss[1..])
  }

  /** The ended sessions, in list order. */
  function Ended(ss: seq<Session>): (r: seq<Session>)
    ensures |r| <= |ss|
    ensures forall s | s in r :: s in ss && s.isSessionEnded
    ensures forall s | s in ss && s.isSessionEnded :: s in r
  {
    if |ss| == 0 then []
    else (if ss[0].isSessionEnded then [ss[0]] else []) + Ended(ss[1..])
  }

  /** `ss.map((s, i) => s.isSessionEnded && i < limit ? s : null)` from
      position `i` on, with the nulls dropped. */
  function EndedFrom(ss: seq<Session>, i: nat, limit: nat): seq<Session>
    decreases |ss| - i
  {
    if i >= |ss| then []
    else (if ss[i].isSessionEnded && i < limit then [ss[i]] else []) + EndedFrom(ss, i + 1, limit)
  }

  /** The ended sessions whose position in the whole list is below `limit`. */
  function EndedBelow(ss: seq<Session>, limit: nat): seq<Session> {
    EndedFrom(ss, 0, limit)
  }

  predicate HasId(ss: seq<Session>, id: string) {
    exists i | 0 <= i < |ss| :: ss[i].id == id
  }

  /** The position `filter(s => s.id === id)[0]` picks, if any. */
  function FirstWithId(ss: seq<Session>, id: string): (r: Option<nat>)
    ensures r.Some? ==> r.value < |ss| && ss[r.value].id == id
    ensures r.Some? ==> forall j | 0 <= j < r.value :: ss[j].id != id
    ensures r.None? ==> forall j | 0 <= j < |ss| :: ss[j].id != id
  {
    if |ss| == 0 then None
    else if ss[0].id == id then Some(0)
    else match FirstWithId(ss[1..], id)
      case None => None
      case Some(i) => Some(i + 1)
  }

  /** `ss.map(s => s.id === id ? rec : s)`. */
  function ReplaceById(ss: seq<Session>, id: string, rec: Session): (r: seq<Session>)
    ensures |r| == |ss|
    ensures forall i | 0 <= i < |ss| :: r[i] == (if ss[i].id == id then rec else ss[i])
  {
    if |ss| == 0 then [] else [if ss[0].id == id then rec else ss[0]] + ReplaceById(ss[1..], id, rec)
  }

  /** `ss.filter(s => s.id !== id)`. */
  function RemoveById(ss: seq<Session>, id: string): (r: seq<Session>)
    ensures forall s | s in r :: s in ss && s.id != id
    ensures forall s | s in ss && s.id != id :: s in r
    ensures |r| <= |ss|
    ensures |r| == |ss| <==> !HasId(ss, id)
  {
    if |ss| == 0 then []
    else
      assert HasId(ss, id) <==> ss[0].id == id || HasId(ss[1..], id) by {
        assert forall i | 1 <= i < |ss| :: ss[i] == ss[1..][i - 1];
      }
      (if ss[0].id == id then [] else [ss[0]]) + RemoveById(ss[1..], id)
  }

  /** Every session is either open or ended: the two lists split the whole. */
  lemma {:induction false} ActiveEndedPartition(ss: seq<Session>)
    ensures |Active(ss)| + |Ended(ss)| == |ss|
  {
    if |ss| > 0 {
      ActiveEndedPartition(ss[1..]);
    }
  }

  /** Selecting open sessions keeps list order: it distributes over `+`. */
  lemma {:induction false} ActiveAppend(a: seq<Session>, b: seq<Session>)
    ensures Active(a + b) == Active(a) + Active(b)
  {
    if |a| == 0 {
      assert a + b == b;
    } else {
      assert (a + b)[1..] == a[1..] + b;
      ActiveAppend(a[1..], b);
    }
  }

  /** Selecting ended sessions keeps list order. */
  lemma {:induction false} EndedAppend(a: seq<Session>, b: seq<Session>)
    ensures Ended(a + b) == Ended(a) + Ended(b)
  {
    if |a| == 0 {
      assert a + b == b;
    } else {
      assert (a + b)[1..] == a[1..] + b;
      EndedAppend(a[1..], b);
    }
  }

  /** Removing by id keeps the order of what stays: it distributes over `+`. */
  lemma {:induction false} RemoveByIdAppend(a: seq<Session>, b: seq<Session>, id: string)
    ensures RemoveById(a + b, id) == RemoveById(a, id) + RemoveById(b, id)
  {
    if |a| == 0 {
      assert a + b == b;
    } else {
      assert (a + b)[1..] == a[1..] + b;
      RemoveByIdAppend(a[1..], b, id);
    }
  }

  /** Removing an id nobody has leaves the list as it is. */
  lemma {:induction false} RemoveByIdAbsent(ss: seq<Session>, id: string)
    requires !HasId(ss, id)
    ensures RemoveById(ss, id) == ss
  {
    if |ss| > 0 {
      assert !HasId(ss[1..], id) by {
        forall i | 0 <= i < |ss| - 1
          ensures ss[1..][i].id != id
        {
          assert ss[1..][i] == ss[i + 1];
        }
      }
      RemoveByIdAbsent(ss[1..], id);
      assert ss == [ss[0]] + ss[1..];
    }
  }

  lemma {:induction false} EndedFromIsEndedSlice(ss: seq<Session>, i: nat, limit: nat)
    requires i <= |ss|
    ensures EndedFrom(ss, i, limit) == if i < limit then Ended(ss[i..Min(limit, |ss|)]) else []
    decreases |ss| - i
  {
    if i < |ss| {
      EndedFromIsEndedSlice(ss, i + 1, limit);
      if i < limit {
        var t := ss[i..Min(limit, |ss|)];
        assert t[0] == ss[i];
        assert t[1..] == ss[i + 1..Min(limit, |ss|)];
      }
    }
  }

  /** "Ended and at position below `limit`" is "ended, among the first
      `limit` sessions", so such a listing never holds more than `limit`. */
  lemma EndedBelowIsEndedPrefix(ss: seq<Session>, limit: nat)
    ensures EndedBelow(ss, limit) == Ended(ss[..Min(limit, |ss|)])
    ensures |EndedBelow(ss, limit)| <= limit
  {
    EndedFromIsEndedSlice(ss, 0, limit);
    if limit == 0 {
      assert ss[..0] == [];
    } else {
      assert ss[0..Min(limit, |ss|)] == ss[..Min(limit, |ss|)];
    }
  }
}
