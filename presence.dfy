/** `extractMembers` of the presence hook (src/hooks/usePresence.ts): one
    member per presence key, taken from the key's list. The presence state
    is given as its values in the order `Object.values` yields them. */
module Presence {

  datatype PresenceStatus = Online | Busy

  datatype PresenceUser = PresenceUser(userId: string, userName: string, status: PresenceStatus, joinedAt: string)

  /** The first presence of every non-empty list, in list order. */
  function FirstPresences(values: seq<seq<PresenceUser>>): (r: seq<PresenceUser>)
    ensures |r| <= |values|
  {
    if |values| == 0 then []
    else
      var last := values[|values| - 1];
      FirstPresences(values[..|values| - 1]) + (if |last| > 0 then [last[0]] else [])
  }

  /** How many lists are non-empty. */
  function NonEmptyCount(values: seq<seq<PresenceUser>>): nat {
    if |values| == 0 then 0
    else NonEmptyCount(values[..|values| - 1]) + (if |values[|values| - 1]| > 0 then 1 else 0)
  }

  /** The loop of `extractMembers`, pushing each non-empty list's first entry. */
  method ExtractMembers(values: seq<seq<PresenceUser>>) returns (members: seq<PresenceUser>)
    ensures members == FirstPresences(values)
  {
    members := [];
    var i := 0;
    while i < |values|
      invariant 0 <= i <= |values|
      invariant members == FirstPresences(values[..i])
    {
      assert values[..i + 1][..i] == values[..i];
      if |values[i]| > 0 {
        members := members + [values[i][0]];
      }
      i := i + 1;
    }
    assert values[..|values|] == values;
  }

  /** One member per non-empty list and none for an empty one. */
  lemma {:induction false} FirstPresencesCount(values: seq<seq<PresenceUser>>)
    ensures |FirstPresences(values)| == NonEmptyCount(values)
    decreases |values|
  {
    if |values| > 0 {
      FirstPresencesCount(values[..|values| - 1]);
    }
  }

  /** A member is emitted iff it heads one of the lists. */
  lemma {:induction false} FirstPresencesAreHeads(values: seq<seq<PresenceUser>>, m: PresenceUser)
    ensures m in FirstPresences(values) <==>
      exists i :: 0 <= i < |values| && |values[i]| > 0 && values[i][0] == m
    decreases |values|
  {
    if |values| > 0 {
      var init := values[..|values| - 1];
      FirstPresencesAreHeads(init, m);
      assert forall i :: 0 <= i < |init| ==> init[i] == values[i];
      if exists i :: 0 <= i < |values| && |values[i]| > 0 && values[i][0] == m {
        var i :| 0 <= i < |values| && |values[i]| > 0 && values[i][0] == m;
        if i < |init| {
          assert |init[i]| > 0 && init[i][0] == m;
        }
      }
    }
  }

  /** The output follows the order of the values: extracting from two runs
      of lists is extracting from each in turn. */
  lemma {:induction false} FirstPresencesAppend(a: seq<seq<PresenceUser>>, b: seq<seq<PresenceUser>>)
    ensures FirstPresences(a + b) == FirstPresences(a) + FirstPresences(b)
    decreases |b|
  {
    if |b| == 0 {
      assert a + b == a;
    } else {
      var ab := a + b;
      assert ab[..|ab| - 1] == a + b[..|b| - 1];
      assert ab[|ab| - 1] == b[|b| - 1];
      FirstPresencesAppend(a, b[..|b| - 1]);
    }
  }
}
