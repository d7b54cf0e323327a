/** The recorded map messages of a bag and the edits bagman makes to their list.

    The mower mows (and navigates) its areas in the order of the messages' time
    stamps, so the only way to reorder areas is to rewrite stamps.  The functions
    below are the reference definitions of the six edits; the methods of
    Session.BagMan perform them step by step (pop, insert, field updates) and
    are proved to agree with them. */
module Areas {

  datatype Option<T> = None | Some(value: T)

  /** A ROS time: whole seconds and nanoseconds. */
  datatype Timestamp = Timestamp(secs: int, nsecs: int)

  /** One message of the bag: its topic, its time stamp, for the messages
      that carry one the human-readable area name, and the rest of the
      message (the area outline and so on).  Bagman never looks into the
      rest; `body` stands for it, so that two areas with the same topic and
      name are still different items. */
  datatype BagItem = BagItem(topic: string, stamp: Timestamp, name: Option<string>, body: int)

  const TopicMowingAreas: string := "mowing_areas"
  const TopicNavigationAreas: string := "navigation_areas"

  /** Only mowing and navigation areas may be given a name. */
  predicate IsNameable(topic: string)
  {
    topic == TopicMowingAreas || topic == TopicNavigationAreas
  }

  /** Time order: seconds first, nanoseconds break ties. */
  predicate Before(a: Timestamp, b: Timestamp)
  {
    a.secs < b.secs || (a.secs == b.secs && a.nsecs < b.nsecs)
  }

  /** The list order agrees with the time order, with no two stamps equal. */
  predicate Ordered(s: seq<BagItem>)
  {
    forall j, k :: 0 <= j < k < |s| ==> Before(s[j].stamp, s[k].stamp)
  }

  function Stamps(s: seq<BagItem>): seq<Timestamp>
  {
    seq(|s|, i requires 0 <= i < |s| => s[i].stamp)
  }

  /** Everything about an item except its stamp. */
  function Content(x: BagItem): (string, Option<string>, int)
  {
    (x.topic, x.name, x.body)
  }

  function Contents(s: seq<BagItem>): seq<(string, Option<string>, int)>
  {
    seq(|s|, i requires 0 <= i < |s| => Content(s[i]))
  }

  /** Python's `list.pop(i)` for a valid index. */
  function Pop<T>(s: seq<T>, i: nat): seq<T>
    requires i < |s|
  {
    s[..i] + s[i + 1..]
  }

  /** Python's `list.insert(i, x)` for an index within the list. */
  function Insert<T>(s: seq<T>, i: nat, x: T): seq<T>
    requires i <= |s|
  {
    s[..i] + [x] + s[i..]
  }

  /** Renaming: only the chosen item's name changes. */
  function Renamed(s: seq<BagItem>, i: nat, newName: string): seq<BagItem>
    requires i < |s|
  {
    s[i := s[i].(name := Some(newName))]
  }

  /** Moving to the first position: the item goes in front of the old first
      item and is stamped 60 seconds before it (nanoseconds kept). */
  function MovedToFirst(s: seq<BagItem>, i: nat): seq<BagItem>
    requires 0 < i < |s|
  {
    [s[i].(stamp := s[i].stamp.(secs := s[0].stamp.secs - 60))] + Pop(s, i)
  }

  /** Moving to the last position: the item goes behind the old last item and
      is stamped 60 seconds after it (nanoseconds kept). */
  function MovedToLast(s: seq<BagItem>, i: nat): seq<BagItem>
    requires i < |s| - 1
  {
    Pop(s, i) + [s[i].(stamp := s[i].stamp.(secs := s[|s| - 1].stamp.secs + 60))]
  }

  /** Moving up: items i-1 and i trade places and trade stamps, so the stamp
      found at each position stays where it was. */
  function MovedUp(s: seq<BagItem>, i: nat): seq<BagItem>
    requires 0 < i < |s|
  {
    s[i - 1 := s[i].(stamp := s[i - 1].stamp)][i := s[i - 1].(stamp := s[i].stamp)]
  }

  /** Moving down: the mirror image of moving up, with item i+1. */
  function MovedDown(s: seq<BagItem>, i: nat): seq<BagItem>
    requires i < |s| - 1
  {
    s[i := s[i + 1].(stamp := s[i].stamp)][i + 1 := s[i].(stamp := s[i + 1].stamp)]
  }

  // ---------------------------------------------------------------------------
  // Properties of the edits

  /** Deleting any one item keeps the rest in time order. */
  lemma PopOrdered(s: seq<BagItem>, i: nat)
    requires i < |s| && Ordered(s)
    ensures Ordered(Pop(s, i))
  {
    var r := Pop(s, i);
    forall j, k | 0 <= j < k < |r|
      ensures Before(r[j].stamp, r[k].stamp)
    {
      var j' := if j < i then j else j + 1;
      var k' := if k < i then k else k + 1;
      assert r[j] == s[j'] && r[k] == s[k'];
    }
  }

  /** Removing an item: one fewer item, the others in their old order with
      their old stamps, and a time-ordered list stays time-ordered. */
  lemma RemovePreserves(s: seq<BagItem>, i: nat)
    requires i < |s|
    ensures |Pop(s, i)| == |s| - 1
    ensures forall j :: 0 <= j < i ==> Pop(s, i)[j] == s[j]
    ensures forall j :: i <= j < |s| - 1 ==> Pop(s, i)[j] == s[j + 1]
    ensures multiset(Pop(s, i)) + multiset{s[i]} == multiset(s)
    ensures Ordered(s) ==> Ordered(Pop(s, i))
  {
    assert s == s[..i] + [s[i]] + s[i + 1..];
    if Ordered(s) {
      PopOrdered(s, i);
    }
  }

  /** Renaming changes the name of one item and nothing else. */
  lemma RenamePreserves(s: seq<BagItem>, i: nat, newName: string)
    requires i < |s|
    ensures |Renamed(s, i, newName)| == |s|
    ensures Renamed(s, i, newName)[i].name == Some(newName)
    ensures Renamed(s, i, newName)[i].topic == s[i].topic
    ensures Renamed(s, i, newName)[i].body == s[i].body
    ensures forall j :: 0 <= j < |s| && j != i ==> Renamed(s, i, newName)[j] == s[j]
    ensures Stamps(Renamed(s, i, newName)) == Stamps(s)
    ensures Ordered(s) ==> Ordered(Renamed(s, i, newName))
  {
  }

  /** Moving to the first position: the moved item ends first with the old first
      item's seconds minus 60 and its own nanoseconds; all the others follow in
      their old order with their old stamps; and a time-ordered list stays
      time-ordered, the moved item now earlier than every other. */
  lemma MoveToFirstPreserves(s: seq<BagItem>, i: nat)
    requires 0 < i < |s|
    ensures |MovedToFirst(s, i)| == |s|
    ensures MovedToFirst(s, i)[0] == s[i].(stamp := Timestamp(s[0].stamp.secs - 60, s[i].stamp.nsecs))
    ensures MovedToFirst(s, i)[1..] == Pop(s, i)
    ensures Ordered(s) ==> Ordered(MovedToFirst(s, i))
    ensures Ordered(s) ==> forall j :: 0 < j < |s| ==> Before(MovedToFirst(s, i)[0].stamp, MovedToFirst(s, i)[j].stamp)
  {
    var r := MovedToFirst(s, i);
    if Ordered(s) {
      PopOrdered(s, i);
      assert Pop(s, i)[0] == s[0];
      forall k | 0 < k < |r|
        ensures Before(r[0].stamp, r[k].stamp)
      {
        assert r[k] == Pop(s, i)[k - 1];
        assert k - 1 == 0 || Before(s[0].stamp, r[k].stamp);
      }
      forall j, k | 0 <= j < k < |r|
        ensures Before(r[j].stamp, r[k].stamp)
      {
        if j > 0 {
          assert r[j] == Pop(s, i)[j - 1] && r[k] == Pop(s, i)[k - 1];
        }
      }
    }
  }

  /** Moving to the last position: the mirror image of MoveToFirstPreserves. */
  lemma MoveToLastPreserves(s: seq<BagItem>, i: nat)
    requires i < |s| - 1
    ensures |MovedToLast(s, i)| == |s|
    ensures MovedToLast(s, i)[|s| - 1] == s[i].(stamp := Timestamp(s[|s| - 1].stamp.secs + 60, s[i].stamp.nsecs))
    ensures MovedToLast(s, i)[..|s| - 1] == Pop(s, i)
    ensures Ordered(s) ==> Ordered(MovedToLast(s, i))
    ensures Ordered(s) ==> forall j :: 0 <= j < |s| - 1 ==> Before(MovedToLast(s, i)[j].stamp, MovedToLast(s, i)[|s| - 1].stamp)
  {
    var r := MovedToLast(s, i);
    var n := |s|;
    assert r[..n - 1] == Pop(s, i);
    if Ordered(s) {
      PopOrdered(s, i);
      assert Pop(s, i)[n - 2] == s[n - 1];
      forall j | 0 <= j < n - 1
        ensures Before(r[j].stamp, r[n - 1].stamp)
      {
        assert r[j] == Pop(s, i)[j];
        assert j == n - 2 || Before(r[j].stamp, s[n - 1].stamp);
      }
      forall j, k | 0 <= j < k < n
        ensures Before(r[j].stamp, r[k].stamp)
      {
        if k < n - 1 {
          assert r[j] == Pop(s, i)[j] && r[k] == Pop(s, i)[k];
        }
      }
    }
  }

  /** Moving up: the two items trade places and stamps; the stamp at every
      position, and so the time order, is unchanged, and the contents (topic,
      name and the rest of the message) are those of the old list with
      positions i-1 and i exchanged. */
  lemma MoveUpPreserves(s: seq<BagItem>, i: nat)
    requires 0 < i < |s|
    ensures |MovedUp(s, i)| == |s|
    ensures Stamps(MovedUp(s, i)) == Stamps(s)
    ensures Content(MovedUp(s, i)[i - 1]) == Content(s[i])
    ensures Content(MovedUp(s, i)[i]) == Content(s[i - 1])
    ensures forall j :: 0 <= j < |s| && j != i - 1 && j != i ==> MovedUp(s, i)[j] == s[j]
    ensures multiset(Stamps(MovedUp(s, i))) == multiset(Stamps(s))
    ensures multiset(Contents(MovedUp(s, i))) == multiset(Contents(s))
    ensures Ordered(s) ==> Ordered(MovedUp(s, i))
  {
    var r := MovedUp(s, i);
    assert Contents(r) == Contents(s)[i - 1 := Content(s[i])][i := Content(s[i - 1])];
    SwapMultiset(Contents(s), i - 1, i);
  }

  /** Moving down: the mirror image of MoveUpPreserves. */
  lemma MoveDownPreserves(s: seq<BagItem>, i: nat)
    requires i < |s| - 1
    ensures |MovedDown(s, i)| == |s|
    ensures Stamps(MovedDown(s, i)) == Stamps(s)
    ensures Content(MovedDown(s, i)[i]) == Content(s[i + 1])
    ensures Content(MovedDown(s, i)[i + 1]) == Content(s[i])
    ensures forall j :: 0 <= j < |s| && j != i && j != i + 1 ==> MovedDown(s, i)[j] == s[j]
    ensures multiset(Stamps(MovedDown(s, i))) == multiset(Stamps(s))
    ensures multiset(Contents(MovedDown(s, i))) == multiset(Contents(s))
    ensures Ordered(s) ==> Ordered(MovedDown(s, i))
  {
    var r := MovedDown(s, i);
    assert Contents(r) == Contents(s)[i := Content(s[i + 1])][i + 1 := Content(s[i])];
    SwapMultiset(Contents(s), i, i + 1);
  }

  /** Exchanging two elements of a sequence keeps its multiset. */
  lemma SwapMultiset<T>(s: seq<T>, a: nat, b: nat)
    requires a < b < |s|
    ensures multiset(s[a := s[b]][b := s[a]]) == multiset(s)
  {
    var t := s[a := s[b]][b := s[a]];
    assert s == s[..a] + [s[a]] + s[a + 1..b] + [s[b]] + s[b + 1..];
    assert t == s[..a] + [s[b]] + s[a + 1..b] + [s[a]] + s[b + 1..];
  }

  /** Moving an item up and then down again (or down and then up) restores the
      list exactly, stamps included. */
  lemma UpDownRoundTrip(s: seq<BagItem>, i: nat)
    requires 0 < i < |s|
    ensures MovedDown(MovedUp(s, i), i - 1) == s
    ensures MovedUp(MovedDown(s, i - 1), i) == s
  {
  }

  /** Three mowing areas stamped 100, 200 and 300 seconds; the last one is
      moved to the front and is stamped 40, in front of the other two. */
  lemma MoveLastToFrontExample()
    ensures var a := BagItem(TopicMowingAreas, Timestamp(100, 0), Some("a"), 1);
            var b := BagItem(TopicMowingAreas, Timestamp(200, 0), Some("b"), 2);
            var c := BagItem(TopicMowingAreas, Timestamp(300, 0), Some("c"), 3);
            MovedToFirst([a, b, c], 2) == [c.(stamp := Timestamp(40, 0)), a, b]
            && Ordered(MovedToFirst([a, b, c], 2))
  {
    var a := BagItem(TopicMowingAreas, Timestamp(100, 0), Some("a"), 1);
    var b := BagItem(TopicMowingAreas, Timestamp(200, 0), Some("b"), 2);
    var c := BagItem(TopicMowingAreas, Timestamp(300, 0), Some("c"), 3);
    assert Ordered([a, b, c]);
    MoveToFirstPreserves([a, b, c], 2);
  }

  /** Two unnamed mowing areas: moving the second up really exchanges the
      two areas (only the stamps stay in place), so the mower now mows the
      second one first. */
  lemma MoveUpSwapsAreasExample()
    ensures var a := BagItem(TopicMowingAreas, Timestamp(100, 0), None, 1);
            var b := BagItem(TopicMowingAreas, Timestamp(200, 0), None, 2);
            MovedUp([a, b], 1) == [b.(stamp := Timestamp(100, 0)), a.(stamp := Timestamp(200, 0))]
            && MovedUp([a, b], 1) != [a, b]
  {
    var a := BagItem(TopicMowingAreas, Timestamp(100, 0), None, 1);
    var b := BagItem(TopicMowingAreas, Timestamp(200, 0), None, 2);
    MoveUpPreserves([a, b], 1);
    assert MovedUp([a, b], 1)[0].body == 2;
  }
}
