/** Searching in text: `strstr`, `strchr` and the index functions built on them. */
module Text {
  predicate At(s: string, p: string, i: int) {
    0 <= i && i + |p| <= |s| && s[i..i + |p|] == p
  }

  /** The first place at or after `from` where `p` stands, or -1. */
  function Find(s: string, p: string, from: nat): (i: int)
    requires from <= |s|
    ensures i == -1 || (from <= i && At(s, p, i))
    ensures forall k :: from <= k < (if i == -1 then |s| + 1 else i) ==> !At(s, p, k)
    decreases |s| - from
  {
    if At(s, p, from) then from
    else if from == |s| then -1
    else Find(s, p, from + 1)
  }

  /** Two first places are the same place. */
  lemma FindIs(s: string, p: string, from: nat, i: int)
    requires from <= i && At(s, p, i)
    requires forall k :: from <= k < i ==> !At(s, p, k)
    ensures from <= |s| && Find(s, p, from) == i
  {
    var j := Find(s, p, from);
    assert !(j == -1);
  }

  lemma FindNone(s: string, p: string, from: nat)
    requires from <= |s|
    requires forall k :: from <= k <= |s| ==> !At(s, p, k)
    ensures Find(s, p, from) == -1
  {
  }
}
