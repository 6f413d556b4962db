/** Version titles: the comparator is a consistent order, and some rank of titles agrees with it. */
module ChangelogVersions {
  import opened Collections
  import opened ChangelogFix
  import opened ChangelogOrder
  import opened ChangelogPromotion

  // The numbers of a title, for the titles whose parts are numbers.
  type Version = seq<int>

  /** A part that is missing counts as zero. */
  function Part(v: Version, i: nat): int {
    if i < |v| then v[i] else 0
  }

  /** The comparator: negative when `left` comes first. */
  method CompareDesc(left: Version, right: Version) returns (difference: int)
    ensures difference < 0 <==> Newer(left, right)
    ensures difference > 0 <==> Newer(right, left)
  {
    var limit := if |left| > |right| then |left| else |right|;
    for i := 0 to limit
      invariant forall j :: 0 <= j < i ==> Part(left, j) == Part(right, j)
    {
      difference := Part(right, i) - Part(left, i);
      if difference != 0 {
        FirstDifference(left, right, i);
        return;
      }
    }
    NoDifference(left, right, limit);
    return 0;
  }

  /** The first part in which they differ. */
  ghost predicate DifferFirst(a: Version, b: Version, i: nat) {
    Part(a, i) != Part(b, i) && forall j :: 0 <= j < i ==> Part(a, j) == Part(b, j)
  }

  /** Of two versions the newer one has the greater part where they first differ. */
  ghost predicate Newer(a: Version, b: Version) {
    exists i :: DifferFirst(a, b, i) && Part(a, i) > Part(b, i)
  }

  lemma {:induction false} OneFirst(a: Version, b: Version, i: nat, j: nat)
    requires DifferFirst(a, b, i) && DifferFirst(a, b, j)
    ensures i == j
  {
  }

  lemma {:induction false} FirstDifference(a: Version, b: Version, i: nat)
    requires DifferFirst(a, b, i)
    ensures Newer(a, b) <==> Part(a, i) > Part(b, i)
    ensures Newer(b, a) <==> Part(b, i) > Part(a, i)
  {
    if Newer(a, b) {
      var j :| DifferFirst(a, b, j) && Part(a, j) > Part(b, j);
      OneFirst(a, b, i, j);
    }
    if Newer(b, a) {
      var j :| DifferFirst(b, a, j) && Part(b, j) > Part(a, j);
      OneFirst(b, a, i, j);
    }
    if Part(b, i) > Part(a, i) {
      assert DifferFirst(b, a, i);
    }
  }

  lemma {:induction false} NoDifference(a: Version, b: Version, limit: nat)
    requires |a| <= limit && |b| <= limit && forall j :: 0 <= j < limit ==> Part(a, j) == Part(b, j)
    ensures !Newer(a, b) && !Newer(b, a)
  {
    forall i: nat ensures !DifferFirst(a, b, i) && !DifferFirst(b, a, i) {
      assert Part(a, i) == Part(b, i);
    }
  }

  lemma {:induction false} NewerIsStrict(a: Version, b: Version)
    ensures !(Newer(a, b) && Newer(b, a))
  {
    if Newer(a, b) {
      var i :| DifferFirst(a, b, i) && Part(a, i) > Part(b, i);
      FirstDifference(a, b, i);
    }
  }

  /** What is newer than one version is newer than all it is not older than. */
  lemma {:induction false} NewerCarries(a: Version, b: Version, c: Version)
    requires Newer(a, b) && !Newer(c, b)
    ensures Newer(a, c)
  {
    var i :| DifferFirst(a, b, i) && Part(a, i) > Part(b, i);
    if j: nat :| j <= i && DifferFirst(c, b, j) {
      FirstDifference(c, b, j);
      assert DifferFirst(a, c, j);
    } else {
      SameUpTo(c, b, i);
      assert DifferFirst(a, c, i);
    }
  }

  lemma {:induction false} SameUpTo(a: Version, b: Version, i: nat)
    requires forall j: nat :: j <= i ==> !DifferFirst(a, b, j)
    ensures forall j :: 0 <= j <= i ==> Part(a, j) == Part(b, j)
    decreases i
  {
    if i > 0 {
      SameUpTo(a, b, i - 1);
    }
    assert !DifferFirst(a, b, i);
  }

  // ----- a rank -----

  /** The titles that are older than `title`. */
  ghost function Older(titles: set<string>, numbers: string -> Version, title: string): set<string> {
    set t | t in titles && Newer(numbers(title), numbers(t))
  }

  ghost function RankOf(titles: set<string>, numbers: string -> Version): Rank {
    (title: string) => |Older(titles, numbers, title)|
  }

  /** Among these titles the rank says just what the comparator does. */
  lemma {:induction false} RankAgrees(titles: set<string>, numbers: string -> Version, a: string, b: string)
    requires a in titles && b in titles
    ensures RankOf(titles, numbers)(a) > RankOf(titles, numbers)(b) <==> Newer(numbers(a), numbers(b))
  {
    if Newer(numbers(a), numbers(b)) {
      MoreOlder(titles, numbers, a, b);
    } else {
      forall t | t in Older(titles, numbers, a) ensures t in Older(titles, numbers, b) {
        NotOlder(numbers(a), numbers(b), numbers(t));
      }
      SubsetSize(Older(titles, numbers, a), Older(titles, numbers, b));
    }
  }

  lemma {:induction false} NotOlder(a: Version, b: Version, t: Version)
    requires !Newer(a, b) && Newer(a, t)
    ensures Newer(b, t)
  {
    if !Newer(b, t) {
      NewerCarries(a, t, b);
    }
  }

  lemma {:induction false} MoreOlder(titles: set<string>, numbers: string -> Version, a: string, b: string)
    requires a in titles && b in titles && Newer(numbers(a), numbers(b))
    ensures |Older(titles, numbers, a)| > |Older(titles, numbers, b)|
  {
    var less, more := Older(titles, numbers, b), Older(titles, numbers, a);
    forall t | t in less ensures t in more {
      NewerIsStrict(numbers(b), numbers(t));
      NewerCarries(numbers(a), numbers(b), numbers(t));
    }
    NewerIsStrict(numbers(b), numbers(b));
    assert b in more && b !in less;
    SubsetSize(less + {b}, more);
  }

  /** Ordered by that rank, no release stands before a newer one. */
  lemma {:induction false} NewestFirst(o: seq<Entry>, titles: set<string>, numbers: string -> Version, i: nat, j: nat)
    requires InOrder(o, RankOf(titles, numbers)) && i < j < |o| && o[i].1 in titles && o[j].1 in titles
    ensures o[i].1 == UNRELEASED || (o[j].1 != UNRELEASED && !Newer(numbers(o[j].1), numbers(o[i].1)))
  {
    RankAgrees(titles, numbers, o[j].1, o[i].1);
  }
}
