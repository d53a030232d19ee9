/** Which hand a message belongs to, decided from its lower-cased device name. */
module Routing {
  import opened Decoder

  datatype Side = Left | Right

  /** Left when the name contains "(l)" or "left"; every other name goes right. */
  function Route(deviceName: string): Side {
    if Contains(deviceName, "(l)") || Contains(deviceName, "left") then Left else Right
  }

  /** The routing test in terms of occurrences: left iff a left marker occurs somewhere. */
  lemma RouteIff(deviceName: string)
    ensures Route(deviceName) == Left <==>
      exists i: nat :: OccursAt(deviceName, "(l)", i) || OccursAt(deviceName, "left", i)
  {
    ContainsIff(deviceName, "(l)");
    ContainsIff(deviceName, "left");
  }

  /** The left glove's name routes left, as does any name containing "left". */
  lemma RouteLeftGlove()
    ensures Route(Lower("Reality Glove (L)")) == Left
    ensures Route(Lower("LEFT glove")) == Left
  {
    assert Lower("Reality Glove (L)") == "reality glove (l)";
    assert OccursAt("reality glove (l)", "(l)", 14);
    RouteIff("reality glove (l)");
    assert Lower("LEFT glove") == "left glove";
    assert OccursAt("left glove", "left", 0);
    RouteIff("left glove");
  }

  /** A string lacking one character of `sub` has no occurrence of `sub`. */
  lemma MissingCharNoOccurrence(s: string, sub: string, k: nat)
    requires k < |sub| && sub[k] !in s
    ensures forall i: nat :: !OccursAt(s, sub, i)
  {
    forall i: nat
      ensures !OccursAt(s, sub, i)
    {
      if i + |sub| <= |s| {
        assert s[i..i + |sub|][k] == s[i + k] && s[i + k] in s;
      }
    }
  }

  /** Neither left marker occurs in the right glove's lower-cased name. */
  lemma NoLeftMarkerInRightGlove()
    ensures forall i: nat :: !OccursAt("reality glove (r)", "(l)", i) && !OccursAt("reality glove (r)", "left", i)
  {
    var head, tail := "reality glove ", "(r)";
    assert head + tail == "reality glove (r)";
    assert '(' !in head && 'f' !in head + tail;
    MissingCharNoOccurrence(head + tail, "left", 2);
    forall i: nat
      ensures !OccursAt(head + tail, "(l)", i)
    {
      var name := head + tail;
      if i < |head| && i + 3 <= |name| {
        assert name[i..i + 3][0] == name[i] == head[i] && head[i] in head;
      } else if i + 3 <= |name| {
        assert i == 14 && name[i..i + 3][1] == name[15] == 'r';
      }
    }
  }

  /** The right glove's name, and a name with no marker at all, route right. */
  lemma RouteRightGlove()
    ensures Route(Lower("Reality Glove (R)")) == Right
    ensures Route("") == Right
  {
    var name := "reality glove (r)";
    LowerRightGlove();
    NoLeftMarkerInRightGlove();
    RouteIff(name);
  }

  lemma LowerRightGlove()
    ensures Lower("Reality Glove (R)") == "reality glove (r)"
  {
  }
}
