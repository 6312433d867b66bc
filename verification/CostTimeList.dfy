// The video decoder's list of the longest decoding times, kept sorted in place.
module CostTimeList {
  const LIST_SIZE := 16

  ghost predicate Sorted(s: seq<real>) {
    forall i, j | 0 <= i < j < |s| :: s[i] <= s[j]
  }

  // The list once `time` has pushed out the smallest entry, if it is larger.
  function Updated(list: seq<real>, time: real): (r: seq<real>)
    requires |list| > 0
    ensures |r| == |list|
  {
    if time <= list[0] then list else Inserted(list[1..], time)
  }

  function Inserted(list: seq<real>, time: real): (r: seq<real>)
    ensures |r| == |list| + 1
  {
    if list == [] || time <= list[0] then [time] + list else [list[0]] + Inserted(list[1..], time)
  }

  method UpdateCostTimeList(list: array?<real>, time: real)
    requires list != null ==> list.Length == LIST_SIZE
    modifies list
    ensures list != null ==> list[..] == Updated(old(list[..]), time)
  {
    if list == null {
      return;
    }
    if time <= list[0] {
      return;
    }
    list[0] := time;
    MoveUp(list, time);
  }

  // Swap the new entry up past the smaller ones.
  method MoveUp(list: array<real>, time: real)
    requires list.Length == LIST_SIZE && list[0] == time
    modifies list
    ensures list[..] == Inserted(old(list[..])[1..], time)
  {
    ghost var rest := list[..][1..];
    hide Inserted;
    var i := 0;
    while i < LIST_SIZE - 1
      invariant 0 <= i < LIST_SIZE && MovedTo(list[..], rest, i, time)
    {
      NextInList(list[..], rest, i, time);
      if list[i + 1] < time {
        ghost var before := list[..];
        list[i + 1], list[i] := list[i], list[i + 1];
        assert list[..] == before[i := before[i + 1]][i + 1 := before[i]];
        MoveOne(before, rest, i, time);
        i := i + 1;
      } else {
        InsertedHere(rest[i..], time);
        break;
      }
    }
    if i == LIST_SIZE - 1 {
      InsertedHere(rest[i..], time);
    }
    Around(list[..], i);
  }

  // The new entry has moved up to position i.
  ghost predicate MovedTo(list: seq<real>, rest: seq<real>, i: nat, time: real) {
    && i < |list| == |rest| + 1 && list[i] == time && list[i + 1..] == rest[i..]
    && list[..i] + Inserted(rest[i..], time) == Inserted(rest, time)
  }

  lemma NextInList(list: seq<real>, rest: seq<real>, i: nat, time: real)
    requires MovedTo(list, rest, i, time) && i < |rest|
    ensures list[i + 1] == rest[i]
  {
    assert list[i + 1..][0] == rest[i..][0];
    hide Inserted;
  }

  lemma MoveOne(list: seq<real>, rest: seq<real>, i: nat, time: real)
    requires MovedTo(list, rest, i, time) && i < |rest| && rest[i] < time
    ensures MovedTo(list[i := list[i + 1]][i + 1 := list[i]], rest, i + 1, time)
  {
    NextInList(list, rest, i, time);
    InsertedFurther(list[..i], rest, i, time);
    hide Inserted;
    var after := list[i := list[i + 1]][i + 1 := list[i]];
    assert after[..i + 1] == list[..i] + [rest[i]];
    assert after[i + 2..] == list[i + 1..][1..] == rest[i..][1..] == rest[i + 1..];
  }

  lemma Around(s: seq<real>, i: nat)
    requires i < |s|
    ensures s == s[..i] + ([s[i]] + s[i + 1..])
  {
  }

  lemma InsertedFurther(done: seq<real>, rest: seq<real>, i: nat, time: real)
    requires i < |rest| && rest[i] < time
    ensures done + Inserted(rest[i..], time) == (done + [rest[i]]) + Inserted(rest[i + 1..], time)
  {
    assert rest[i..][1..] == rest[i + 1..];
  }

  lemma InsertedHere(rest: seq<real>, time: real)
    requires rest == [] || time <= rest[0]
    ensures Inserted(rest, time) == [time] + rest
  {
  }

  // ----- What the list is after any number of updates -----

  // `top` is sorted and holds the |top| largest of `all`.
  ghost predicate Largest(top: seq<real>, all: multiset<real>) {
    && Sorted(top) && multiset(top) <= all
    && forall x, y | x in all - multiset(top) && y in top :: x <= y
  }

  function Zeros(): seq<real> { seq(LIST_SIZE, _ => 0.0) }

  function UpdatedAll(times: seq<real>): (list: seq<real>)
    ensures |list| == LIST_SIZE
  {
    if times == [] then Zeros() else Updated(UpdatedAll(times[..|times| - 1]), times[|times| - 1])
  }

  lemma Front(s: seq<real>)
    requires s != []
    ensures multiset(s) == multiset{s[0]} + multiset(s[1..])
  {
    assert s == [s[0]] + s[1..];
  }

  lemma {:induction false} InsertedItems(list: seq<real>, time: real)
    ensures multiset(Inserted(list, time)) == multiset(list) + multiset{time}
  {
    Front(Inserted(list, time));
    if list != [] && list[0] < time {
      InsertedItems(list[1..], time);
      Front(list);
    }
  }

  lemma {:induction false} InsertedKeeps(list: seq<real>, time: real)
    requires Sorted(list)
    ensures Sorted(Inserted(list, time))
  {
    if list != [] && list[0] < time {
      var r := Inserted(list[1..], time);
      InsertedKeeps(list[1..], time);
      InsertedItems(list[1..], time);
      forall i | 0 <= i < |r| ensures list[0] <= r[i] {
        assert r[i] in multiset(r);
      }
      SortedInFront(list[0], r);
    } else {
      SortedInFront(time, list);
    }
  }

  lemma SortedInFront(x: real, list: seq<real>)
    requires Sorted(list) && forall i | 0 <= i < |list| :: x <= list[i]
    ensures Sorted([x] + list)
  {
  }

  // An update keeps the list the largest of what it has been offered.
  lemma UpdatedKeeps(list: seq<real>, all: multiset<real>, time: real)
    requires |list| > 0 && Largest(list, all)
    ensures Largest(Updated(list, time), all + multiset{time})
  {
    Front(list);
    if time > list[0] {
      InsertedKeeps(list[1..], time);
      InsertedItems(list[1..], time);
      PushedOut(list, all, time, Inserted(list[1..], time));
    } else {
      forall x, y | x in all + multiset{time} - multiset(list) && y in list ensures x <= y {
        assert x == time || x in all - multiset(list);
      }
    }
  }

  lemma PushedOut(list: seq<real>, all: multiset<real>, time: real, r: seq<real>)
    requires |list| > 0 && Largest(list, all) && time > list[0]
    requires Sorted(r) && multiset(r) == multiset(list[1..]) + multiset{time}
    ensures Largest(r, all + multiset{time})
  {
    Front(list);
    forall x, y | x in all + multiset{time} - multiset(r) && y in r ensures x <= y {
      assert x == list[0] || x in all - multiset(list);
      assert y in multiset(r);
      assert y == time || y in list[1..];
      assert list[0] in list;
    }
  }

  // After any updates the list is sorted and holds the 16 largest of the initial
  // zeros and all the times offered.
  lemma {:induction false} TopSixteen(times: seq<real>)
    ensures Largest(UpdatedAll(times), multiset(Zeros()) + multiset(times))
    ensures |UpdatedAll(times)| == 16 && Zeros() == seq(16, _ => 0.0)
  {
    var n := |times|;
    if n > 0 {
      TopSixteen(times[..n - 1]);
      assert times == times[..n - 1] + [times[n - 1]];
      UpdatedKeeps(UpdatedAll(times[..n - 1]), multiset(Zeros()) + multiset(times[..n - 1]), times[n - 1]);
      assert multiset(Zeros()) + multiset(times)
          == (multiset(Zeros()) + multiset(times[..n - 1])) + multiset{times[n - 1]};
    }
  }

  // There is only one such list.
  lemma LargestIsUnique(a: seq<real>, b: seq<real>, all: multiset<real>)
    requires |a| == |b| && Largest(a, all) && Largest(b, all)
    ensures a == b
  {
    if multiset(a) != multiset(b) {
      var x := HasMore(multiset(a), multiset(b));
      var y := HasMore(multiset(b), multiset(a));
      SameRank(a, b, all, x, y);
    }
    SortedIsUnique(a, b);
  }

  lemma SameRank(a: seq<real>, b: seq<real>, all: multiset<real>, x: real, y: real)
    requires Largest(a, all) && Largest(b, all)
    requires multiset(a)[x] > multiset(b)[x] && multiset(b)[y] > multiset(a)[y]
    ensures x == y
  {
    assert x in all - multiset(b) && y in all - multiset(a);
    assert x in multiset(a) && y in multiset(b);
    assert x in a && y in b;
  }

  lemma SameSize(a: multiset<real>, b: multiset<real>)
    requires |a| == |b| && a <= b
    ensures a == b
  {
    assert b == a + (b - a);
    assert |b - a| == 0;
  }

  lemma HasMore(a: multiset<real>, b: multiset<real>) returns (x: real)
    requires |a| == |b| && a != b
    ensures a[x] > b[x]
  {
    if forall x | x in a :: a[x] <= b[x] {
      SameSize(a, b);
    }
    x :| x in a && a[x] > b[x];
  }

  lemma Cancel(x: real, a: multiset<real>, b: multiset<real>)
    requires multiset{x} + a == multiset{x} + b
    ensures a == b
  {
    assert a == (multiset{x} + a) - multiset{x};
  }

  lemma {:induction false} SortedIsUnique(a: seq<real>, b: seq<real>)
    requires Sorted(a) && Sorted(b) && multiset(a) == multiset(b)
    ensures a == b
  {
    assert |multiset(a)| == |a| && |multiset(b)| == |b|;
    if a != [] {
      assert a[0] in multiset(b) && b[0] in multiset(a);
      Front(a);
      Front(b);
      Cancel(a[0], multiset(a[1..]), multiset(b[1..]));
      SortedIsUnique(a[1..], b[1..]);
      assert a == [a[0]] + a[1..] && b == [b[0]] + b[1..];
    }
  }

  // The order in which the times come does not matter.
  lemma OrderDoesNotMatter(times: seq<real>, others: seq<real>)
    requires multiset(times) == multiset(others)
    ensures UpdatedAll(times) == UpdatedAll(others)
  {
    TopSixteen(times);
    TopSixteen(others);
    LargestIsUnique(UpdatedAll(times), UpdatedAll(others), multiset(Zeros()) + multiset(times));
  }
}
