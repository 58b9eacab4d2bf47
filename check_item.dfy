/** The check item record shared by the service and the form. */
module CheckItemModel {

  /** An item's answer. The source stores it as a string: "" (unset), "yes" or "no". */
  datatype Answer = Unset | Yes | No

  /** A value a user can pick for an item: "yes" or "no". */
  type Verdict = a: Answer | a != Unset witness Yes

  /** One verification question, with the two fields the form maintains. */
  datatype CheckItem = CheckItem(
    id: string,
    priority: int,
    description: string,
    result: Answer,
    disabled: bool)

  /** The part of an item that the check source provides and the form never changes. */
  datatype Check = Check(id: string, priority: int, description: string)

  /** The record submitted for one answered item. */
  datatype CheckResult = CheckResult(checkId: string, result: Answer)

  function CheckOf(item: CheckItem): Check {
    Check(item.id, item.priority, item.description)
  }

  function Checks(s: seq<CheckItem>): seq<Check> {
    seq(|s|, k requires 0 <= k < |s| => CheckOf(s[k]))
  }

  lemma ChecksConcat(a: seq<CheckItem>, b: seq<CheckItem>)
    ensures Checks(a + b) == Checks(a) + Checks(b)
  {
  }

  /** Projecting a permutation of items gives a permutation of their checks. */
  lemma {:induction false} ChecksOfPermutation(s: seq<CheckItem>, t: seq<CheckItem>)
    requires multiset(s) == multiset(t)
    ensures multiset(Checks(s)) == multiset(Checks(t))
    decreases |s|
  {
    if s == [] {
      assert |t| == |multiset(t)| == 0;
    } else {
      var x := s[0];
      assert x in multiset(t);
      var k :| 0 <= k < |t| && t[k] == x;
      var t' := t[..k] + t[k + 1..];
      assert t == t[..k] + [x] + t[k + 1..];
      assert s == [x] + s[1..];
      assert multiset(t) == multiset(t[..k]) + multiset{x} + multiset(t[k + 1..]);
      assert multiset(t') == multiset(t[..k]) + multiset(t[k + 1..]);
      assert multiset(s) == multiset{x} + multiset(s[1..]);
      assert multiset(s[1..]) == multiset(s) - multiset{x};
      assert multiset(t') == multiset(t) - multiset{x};
      ChecksOfPermutation(s[1..], t');
      ChecksConcat([x], s[1..]);
      ChecksConcat(t[..k] + [x], t[k + 1..]);
      ChecksConcat(t[..k], [x]);
      ChecksConcat(t[..k], t[k + 1..]);
    }
  }

  /**
   * The initial state of a list of items: every answer cleared, the first item
   * enabled and every other item disabled. Both the item load and the form's
   * reset apply this map.
   */
  function Initialized(s: seq<CheckItem>): (r: seq<CheckItem>)
    ensures |r| == |s|
    ensures Checks(r) == Checks(s)
    ensures forall k :: 0 <= k < |r| ==> r[k].result == Unset
    ensures forall k :: 0 <= k < |r| ==> (r[k].disabled <==> k != 0)
  {
    seq(|s|, k requires 0 <= k < |s| => s[k].(result := Unset, disabled := k != 0))
  }
}
