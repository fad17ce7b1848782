/**
 * `Work.findAll({ where: { userId }, order: … })`: the rows of one user, in the
 * order the queries ask for (sortOrder ascending, then createdAt descending).
 * The database returns tied rows in no guaranteed order; the model keeps
 * table order among them.
 */
module WorkQuery {
  import opened Records

  /** The listing order: `sortOrder` ascending, then `createdAt` descending. */
  predicate Precedes(a: Work, b: Work) {
    a.sortOrder < b.sortOrder || (a.sortOrder == b.sortOrder && a.createdAt >= b.createdAt)
  }

  predicate Sorted(s: seq<Work>) {
    forall i, j :: 0 <= i < j < |s| ==> Precedes(s[i], s[j])
  }

  /** The rows of `works` owned by `userId`, in table order. */
  function OwnedBy(works: seq<Work>, userId: Id): (r: seq<Work>)
    ensures |r| <= |works|
    ensures forall w :: w in r <==> w in works && w.userId == userId
  {
    if works == [] then []
    else (if works[0].userId == userId then [works[0]] else []) + OwnedBy(works[1..], userId)
  }

  /** A row that precedes every row of a sorted list can head it. */
  lemma ConsSorted(x: Work, t: seq<Work>)
    requires Sorted(t) && forall y :: y in t ==> Precedes(x, y)
    ensures Sorted([x] + t)
  {
    var r := [x] + t;
    forall i, j | 0 <= i < j < |r| ensures Precedes(r[i], r[j]) {
      assert r[j] == t[j - 1];
      if i > 0 { assert r[i] == t[i - 1]; }
    }
  }

  /** Inserts `w` into a sorted list, after every row that precedes it. */
  function Insert(w: Work, s: seq<Work>): (r: seq<Work>)
    requires Sorted(s)
    ensures Sorted(r)
    ensures multiset(r) == multiset(s) + multiset{w}
    ensures forall x :: x in r <==> x == w || x in s
  {
    if s == [] then [w]
    else if Precedes(w, s[0]) then
      assert forall y :: y in s ==> Precedes(w, y) by {
        forall y | y in s ensures Precedes(w, y) {
          var j :| 0 <= j < |s| && s[j] == y;
          if j > 0 { assert Precedes(s[0], s[j]); }
        }
      }
      ConsSorted(w, s);
      [w] + s
    else
      var rest := Insert(w, s[1..]);
      assert s == [s[0]] + s[1..];
      assert forall y :: y in rest ==> Precedes(s[0], y) by {
        forall y | y in rest ensures Precedes(s[0], y) {
          if y != w {
            var k :| 0 <= k < |s[1..]| && s[1..][k] == y;
            assert s[k + 1] == y;
          }
        }
      }
      ConsSorted(s[0], rest);
      [s[0]] + rest
  }

  /** Insertion sort in the listing order. */
  function Sort(s: seq<Work>): (r: seq<Work>)
    ensures Sorted(r)
    ensures multiset(r) == multiset(s)
  {
    if s == [] then []
    else
      assert s == [s[0]] + s[1..];
      Insert(s[0], Sort(s[1..]))
  }

  /** The listing of `getWorksByUserId`: exactly the user's rows, each as often as stored,
      sorted by sortOrder ascending and then createdAt descending. */
  function ListWorks(works: seq<Work>, userId: Id): (r: seq<Work>)
    ensures Sorted(r)
    ensures multiset(r) == multiset(OwnedBy(works, userId))
    ensures forall w :: w in r <==> w in works && w.userId == userId
  {
    var r := Sort(OwnedBy(works, userId));
    assert forall w :: w in r <==> w in multiset(OwnedBy(works, userId));
    r
  }

  /** In a listing, sortOrder never decreases. */
  lemma ListingAscendsBySortOrder(works: seq<Work>, userId: Id, i: nat, j: nat)
    requires i <= j < |ListWorks(works, userId)|
    ensures ListWorks(works, userId)[i].sortOrder <= ListWorks(works, userId)[j].sortOrder
  {
    var r := ListWorks(works, userId);
    if i < j {
      assert Precedes(r[i], r[j]);
    }
  }
}
