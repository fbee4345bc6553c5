/** Reading facts off an event log: "the latest relevant event is a hit". */
module Histories {

  /** Some entry of the log is a hit, and no entry after it clears. */
  ghost predicate Latest<T(!new)>(log: seq<T>, hit: T -> bool, clear: T -> bool) {
    exists i :: 0 <= i < |log| && hit(log[i]) && NoneAfter(log, i, clear)
  }

  ghost predicate NoneAfter<T(!new)>(log: seq<T>, i: nat, clear: T -> bool) {
    forall j :: i < j < |log| ==> !clear(log[j])
  }

  /** How one more entry changes what the log says. */
  lemma LatestSnoc<T(!new)>(log: seq<T>, e: T, hit: T -> bool, clear: T -> bool)
    ensures Latest(log + [e], hit, clear) <==> hit(e) || (!clear(e) && Latest(log, hit, clear))
  {
    var longer := log + [e];
    if hit(e) {
      assert longer[|log|] == e && NoneAfter(longer, |log|, clear);
    } else if !clear(e) && Latest(log, hit, clear) {
      var i :| 0 <= i < |log| && hit(log[i]) && NoneAfter(log, i, clear);
      assert longer[i] == log[i] && NoneAfter(longer, i, clear);
    }
    if Latest(longer, hit, clear) && !hit(e) {
      var i :| 0 <= i < |longer| && hit(longer[i]) && NoneAfter(longer, i, clear);
      assert !clear(longer[|log|]);
      forall j | i < j < |log| ensures !clear(log[j]) {
        assert longer[j] == log[j];
      }
      assert hit(log[i]) && NoneAfter(log, i, clear);
    }
  }
}
