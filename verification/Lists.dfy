// Lists without repeats, finding the first of a kind, and picking the soonest.
module Lists {

  ghost predicate Distinct<T(!new)>(s: seq<T>) {
    forall i, j :: 0 <= i < j < |s| ==> s[i] != s[j]
  }

  /** The first element that satisfies `p`, or the end of the list. */
  lemma {:induction false} FirstIndex<T>(s: seq<T>, p: T -> bool) returns (i: nat)
    ensures i <= |s| && (i < |s| ==> p(s[i])) && forall j :: 0 <= j < i ==> !p(s[j])
  {
    if s == [] || p(s[0]) {
      i := 0;
    } else {
      i := FirstIndex(s[1..], p);
      i := i + 1;
      forall j | 0 <= j < i ensures !p(s[j]) {
        assert j > 0 ==> s[j] == s[1..][j - 1];
      }
    }
  }

  lemma {:induction false} Soonest(times: map<string, int>, ids: set<string>) returns (first: string)
    requires ids != {} && ids <= times.Keys
    ensures first in ids && forall id :: id in ids ==> times[first] <= times[id]
  {
    first :| first in ids;
    if ids != {first} {
      assert ids - {first} != {} by {
        assert ids == {first} + (ids - {first});
      }
      var other := Soonest(times, ids - {first});
      if times[other] < times[first] {
        first := other;
      }
    }
  }

  /** The soonest of any set of times can be listed, up to any limit, soonest first. */
  lemma {:induction false} SoonestCanBeListed(times: map<string, int>, limit: nat) returns (due: seq<string>)
    ensures Distinct(due) && |due| <= limit && forall id :: id in due ==> id in times
    ensures forall i, j :: 0 <= i < j < |due| ==> times[due[i]] <= times[due[j]]
    ensures forall id :: id in times && id !in due ==> |due| == limit && forall d :: d in due ==> times[d] <= times[id]
  {
    due := [];
    if limit > 0 {
      due := SoonestCanBeListed(times, limit - 1);
      var rest := set id | id in times && id !in due;
      assert forall id :: id in times ==> id in due || id in rest;
      if rest != {} {
        var next := Soonest(times, rest);
        assert forall d :: d in due + [next] <==> d in due || d == next;
        due := due + [next];
      }
    }
  }
}
