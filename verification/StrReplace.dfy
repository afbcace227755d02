/** `strreplace` of utils.c: find every match, size the result, copy it in one pass. */
module StrReplace {
  import opened Text

  const NUL: char := '\0'

  /** `size_t` wraps around here. */
  const WORD: nat := 0x1_0000_0000_0000_0000

  /** What replacing means: at each place, a match is replaced and skipped, another character is kept. */
  function Replace(s: string, old_: string, new_: string): string
    requires old_ != ""
    decreases |s|
  {
    if s == "" then ""
    else if At(s, old_, 0) then new_ + Replace(s[|old_|..], old_, new_)
    else [s[0]] + Replace(s[1..], old_, new_)
  }

  // The matches.

  function Positions(s: string, old_: string, from: nat): (pos: seq<nat>)
    requires old_ != "" && from <= |s|
    ensures forall k :: 0 <= k < |pos| ==> from <= pos[k] <= |s| - |old_|
    decreases |s| - from
  {
    var i := Find(s, old_, from);
    if i == -1 then [] else [i] + Positions(s, old_, i + |old_|)
  }

  /** Matches in order, the second not before the end of the first. */
  ghost predicate Apart(s: string, pos: seq<nat>, oldlen: nat, from: nat)
    decreases |pos|
  {
    from <= |s| && (pos != [] ==> from <= pos[0] && pos[0] + oldlen <= |s| && Apart(s, pos[1..], oldlen, pos[0] + oldlen))
  }

  /** The text from `from` on, with something new at each match. */
  function Splice(s: string, pos: seq<nat>, oldlen: nat, new_: string, from: nat): string
    requires Apart(s, pos, oldlen, from)
    decreases |pos|
  {
    if pos == [] then s[from..]
    else s[from..pos[0]] + new_ + Splice(s, pos[1..], oldlen, new_, pos[0] + oldlen)
  }

  lemma SpliceNone(s: string, oldlen: nat, new_: string, from: nat)
    requires from <= |s|
    ensures Apart(s, [], oldlen, from) && Splice(s, [], oldlen, new_, from) == s[from..]
  {
  }

  lemma SpliceCons(s: string, i: nat, rest: seq<nat>, oldlen: nat, new_: string, from: nat)
    requires Apart(s, [i] + rest, oldlen, from)
    ensures from <= i && i + oldlen <= |s| && Apart(s, rest, oldlen, i + oldlen)
    ensures Splice(s, [i] + rest, oldlen, new_, from) == s[from..i] + new_ + Splice(s, rest, oldlen, new_, i + oldlen)
  {
    var pos := [i] + rest;
    assert pos[0] == i && pos[1..] == rest;
    ApartCons(s, pos, oldlen, from);
    hide Apart;
    assert Splice(s, pos, oldlen, new_, from) == s[from..pos[0]] + new_ + Splice(s, pos[1..], oldlen, new_, pos[0] + oldlen);
  }

  lemma ApartCons(s: string, pos: seq<nat>, oldlen: nat, from: nat)
    requires pos != [] && Apart(s, pos, oldlen, from)
    ensures from <= pos[0] && pos[0] + oldlen <= |s| && Apart(s, pos[1..], oldlen, pos[0] + oldlen)
  {
  }

  lemma PositionsNone(s: string, old_: string, from: nat)
    requires old_ != "" && from <= |s| && Find(s, old_, from) == -1
    ensures Positions(s, old_, from) == []
  {
  }

  lemma PositionsStep(s: string, old_: string, from: nat)
    requires old_ != "" && from <= |s| && Find(s, old_, from) != -1
    ensures var i := Find(s, old_, from); var pos := Positions(s, old_, from);
            from <= i && i + |old_| <= |s| && pos == [i] + Positions(s, old_, i + |old_|)
            && pos[0] == i && pos[1..] == Positions(s, old_, i + |old_|)
  {
    hide Find;
  }

  lemma {:induction false} PositionsApart(s: string, old_: string, from: nat)
    requires old_ != "" && from <= |s|
    ensures Apart(s, Positions(s, old_, from), |old_|, from)
    decreases |s| - from
  {
    hide At, Find;
    var i := Find(s, old_, from);
    if i != -1 {
      PositionsStep(s, old_, from);
      hide Positions;
      PositionsApart(s, old_, i + |old_|);
    }
  }

  lemma AtSuffix(s: string, p: string, from: nat)
    requires from <= |s|
    ensures At(s[from..], p, 0) == At(s, p, from)
  {
    if from + |p| <= |s| {
      assert s[from..][0..|p|] == s[from..from + |p|];
    }
  }

  /** Where nothing matches, replacing keeps the text. */
  lemma {:induction false} KeepsBeforeMatch(s: string, old_: string, new_: string, from: nat, to: nat)
    requires old_ != "" && from <= to <= |s|
    requires forall k :: from <= k < to ==> !At(s, old_, k)
    ensures Replace(s[from..], old_, new_) == s[from..to] + Replace(s[to..], old_, new_)
    decreases |s| - from
  {
    if from < to {
      ReplaceAtOther(s, old_, new_, from);
      hide Replace, At;
      KeepsBeforeMatch(s, old_, new_, from + 1, to);
      Assoc([s[from]], s[from + 1..to], Replace(s[to..], old_, new_));
      assert s[from..to] == [s[from]] + s[from + 1..to];
    } else {
      assert s[from..to] == "";
    }
  }

  lemma ReplaceAtOther(s: string, old_: string, new_: string, i: nat)
    requires old_ != "" && i < |s| && !At(s, old_, i)
    ensures Replace(s[i..], old_, new_) == [s[i]] + Replace(s[i + 1..], old_, new_)
  {
    AtSuffix(s, old_, i);
    assert s[i..][1..] == s[i + 1..];
  }

  lemma ReplaceAtMatch(s: string, old_: string, new_: string, i: nat)
    requires old_ != "" && At(s, old_, i)
    ensures Replace(s[i..], old_, new_) == new_ + Replace(s[i + |old_|..], old_, new_)
  {
    AtSuffix(s, old_, i);
    assert s[i..][|old_|..] == s[i + |old_|..];
  }

  /** Splicing at the matches a search from the left finds is replacing. */
  lemma {:induction false} SpliceIsReplace(s: string, old_: string, new_: string, from: nat)
    requires old_ != "" && from <= |s| && Apart(s, Positions(s, old_, from), |old_|, from)
    ensures Splice(s, Positions(s, old_, from), |old_|, new_, from) == Replace(s[from..], old_, new_)
    decreases |s| - from
  {
    hide At, Find, Replace, Positions, Apart, Splice;
    var i := Find(s, old_, from);
    if i == -1 {
      PositionsNone(s, old_, from);
      SpliceNone(s, |old_|, new_, from);
      KeepsBeforeMatch(s, old_, new_, from, |s|);
      ReplaceNothing(old_, new_);
      assert s[|s|..] == "";
      assert s[from..|s|] + "" == s[from..];
    } else {
      PositionsStep(s, old_, from);
      SpliceCons(s, i, Positions(s, old_, i + |old_|), |old_|, new_, from);
      SpliceIsReplace(s, old_, new_, i + |old_|);
      KeepsBeforeMatch(s, old_, new_, from, i);
      ReplaceAtMatch(s, old_, new_, i);
      Assoc(s[from..i], new_, Replace(s[i + |old_|..], old_, new_));
    }
  }

  lemma ReplaceNothing(old_: string, new_: string)
    requires old_ != ""
    ensures Replace("", old_, new_) == ""
  {
  }

  lemma Assoc(a: string, b: string, c: string)
    ensures a + (b + c) == a + b + c
  {
  }

  /** The loop's positions, spliced, give the replaced text. */
  lemma Replaced(s: string, old_: string, new_: string)
    requires old_ != ""
    ensures Apart(s, Positions(s, old_, 0), |old_|, 0)
    ensures Splice(s, Positions(s, old_, 0), |old_|, new_, 0) == Replace(s, old_, new_)
  {
    PositionsApart(s, old_, 0);
    SpliceIsReplace(s, old_, new_, 0);
    assert s[0..] == s;
  }

  // The length formula.

  lemma {:induction false} SpliceLength(s: string, pos: seq<nat>, oldlen: nat, new_: string, from: nat)
    requires Apart(s, pos, oldlen, from)
    ensures |Splice(s, pos, oldlen, new_, from)| == |s| - from + (|new_| - oldlen) * |pos|
    decreases |pos|
  {
    if pos != [] {
      SpliceLength(s, pos[1..], oldlen, new_, pos[0] + oldlen);
      var d := |new_| - oldlen;
      assert d * |pos| == d * (|pos| - 1) + d;
    }
  }

  /** `orglen + (newlen - oldlen) * count` on `size_t`: each operation wraps. */
  function RetLen(orglen: nat, newlen: nat, oldlen: nat, count: nat): (n: nat)
    ensures n < WORD
  {
    (orglen + ((newlen - oldlen) % WORD) * count % WORD) % WORD
  }

  /** A value is its own remainder exactly below the word size. */
  lemma WrapProduct(a: int, d: int, c: int)
    ensures (a + (d % WORD) * c % WORD) % WORD == (a + d * c) % WORD
  {
    var q, r := d / WORD, d % WORD;
    assert d == WORD * q + r;
    assert d * c == WORD * (q * c) + r * c;
    var q1, r1 := (r * c) / WORD, (r * c) % WORD;
    assert r * c == WORD * q1 + r1;
    var x := a + r1;
    assert a + d * c == x + WORD * (q * c + q1);
    SameRemainder(x, q * c + q1);
  }

  lemma SameRemainder(x: int, q: int)
    ensures (x + WORD * q) % WORD == x % WORD
  {
    var y := x + WORD * q;
    assert y == WORD * (x / WORD + q) + x % WORD;
    Unique(y, x / WORD + q, x % WORD);
  }

  lemma Unique(y: int, q: int, r: int)
    requires y == WORD * q + r && 0 <= r < WORD
    ensures y % WORD == r
  {
    var q', r' := y / WORD, y % WORD;
    assert y == WORD * q' + r';
    assert WORD * (q - q') == r' - r;
    assert q == q';
  }

  /** The formula gives the length of the result exactly when that length is a `size_t`, shorter results included. */
  lemma LengthExact(s: string, old_: string, new_: string)
    requires old_ != ""
    ensures RetLen(|s|, |new_|, |old_|, |Positions(s, old_, 0)|) == |Replace(s, old_, new_)|
        <==> |Replace(s, old_, new_)| < WORD
  {
    hide Positions, Replace, Splice, Apart;
    var pos, n := Positions(s, old_, 0), |Replace(s, old_, new_)|;
    Replaced(s, old_, new_);
    SpliceLength(s, pos, |old_|, new_, 0);
    RetLenIs(|s|, |new_|, |old_|, |pos|);
    hide RetLen;
    if n < WORD {
      Unique(n, 0, n);
    }
  }

  lemma RetLenIs(orglen: nat, newlen: nat, oldlen: nat, count: nat)
    ensures RetLen(orglen, newlen, oldlen, count) == (orglen + (newlen - oldlen) * count) % WORD
  {
    WrapProduct(orglen, newlen - oldlen, count);
  }

  // The cache of positions.

  const FIRST_INC: nat := 16
  const INC_FACTOR: nat := 3
  const MAX_INC: nat := 1048576

  /** What the cache grows by the next time, after `g` growths. */
  function Increment(g: nat): (n: nat)
    ensures 16 <= n <= MAX_INC
  {
    if g == 0 then FIRST_INC
    else if Increment(g - 1) * INC_FACTOR > MAX_INC then MAX_INC
    else Increment(g - 1) * INC_FACTOR
  }

  function Capacity(g: nat): nat { if g == 0 then 0 else Capacity(g - 1) + Increment(g - 1) }

  /** How often the cache grows for so many matches. */
  function Growths(count: nat): (g: nat)
    ensures count <= Capacity(g) && (count > 0 ==> g > 0 && Capacity(g - 1) < count)
  {
    if count == 0 then 0
    else if count <= Capacity(Growths(count - 1)) then Growths(count - 1)
    else Growths(count - 1) + 1
  }

  /** `memcpy`. */
  method Copy(ret: array<char>, at: nat, text: string)
    requires at + |text| <= ret.Length
    modifies ret
    ensures ret[..at + |text|] == old(ret[..at]) + text
  {
    forall k | 0 <= k < |text| {
      ret[at + k] := text[k];
    }
    assert ret[..at] == old(ret[..at]);
    assert ret[at..at + |text|] == text;
  }

  /** `realloc` of the cache. */
  method Enlarge(cache: array<nat>, size: nat) returns (larger: array<nat>)
    requires cache.Length <= size
    ensures fresh(larger) && larger.Length == size && larger[..cache.Length] == cache[..]
  {
    larger := new nat[size];
    forall k | 0 <= k < cache.Length {
      larger[k] := cache[k];
    }
  }

  /** Whether one of the first `n` requests for memory is refused. */
  predicate Refused(grants: nat -> bool, n: nat) { exists k :: 0 <= k < n && !grants(k) }

  /** One more position for the cache, which grows when it is full. */
  method Record(cache: array<nat>, cacheSzInc: nat, count: nat, pos: nat, g: nat, grants: nat -> bool)
    returns (larger: array<nat>, inc: nat, g': nat, ok: bool)
    requires cache.Length == Capacity(g) && cacheSzInc == Increment(g) && count <= cache.Length
    requires g == Growths(count) && !Refused(grants, g)
    modifies cache
    ensures larger == cache || fresh(larger)
    ensures ok <==> !Refused(grants, Growths(count + 1))
    ensures ok ==> g' == Growths(count + 1) && larger.Length == Capacity(g') && inc == Increment(g')
    ensures ok ==> count < larger.Length && larger[..count + 1] == old(cache[..count]) + [pos]
  {
    hide *;
    GrowthStep(count + 1, grants);
    larger, inc, g', ok := cache, cacheSzInc, g, true;
    if cache.Length < count + 1 {
      if !grants(g) {
        ok := false;
        return;
      }
      larger := Enlarge(cache, cache.Length + inc);
      inc := inc * INC_FACTOR;
      if inc > MAX_INC {
        inc := MAX_INC;
      }
      g' := g + 1;
    }
    assert larger[..count] == old(cache[..count]);
    larger[count] := pos;
    assert larger[..count] == old(cache[..count]);
  }

  /** The first loop: the cache holds the positions of all matches, or the request that grows it was refused. */
  method FindAll(s: string, old_: string, grants: nat -> bool) returns (cache: array<nat>, count: nat, ok: bool)
    requires old_ != ""
    ensures fresh(cache)
    ensures ok <==> !Refused(grants, Growths(|Positions(s, old_, 0)|))
    ensures ok ==> count <= cache.Length && cache[..count] == Positions(s, old_, 0)
    ensures ok ==> cache.Length == Capacity(Growths(count))
  {
    hide *;
    var cacheSzInc, pstr := FIRST_INC, 0;
    cache, count, ok := new nat[0], 0, true;
    var g := 0; // requests made
    ghost var found: seq<nat> := [];
    NoGrowth(grants);
    FoundStart(s, old_);
    var pstr2 := Find(s, old_, pstr);
    while pstr2 != -1
      invariant pstr <= |s| && pstr2 == Find(s, old_, pstr) && Found(s, old_, found, pstr)
      invariant fresh(cache) && cache.Length == Capacity(g) && cacheSzInc == Increment(g)
      invariant count <= cache.Length && g == Growths(count) && !Refused(grants, g) && ok
      invariant cache[..count] == found
      decreases |s| - pstr
    {
      FoundNext(s, old_, found, pstr);
      cache, cacheSzInc, g, ok := Record(cache, cacheSzInc, count, pstr2, g, grants);
      count := count + 1;
      if !ok {
        RefusedMore(grants, count, |Positions(s, old_, 0)|);
        return;
      }
      found := found + [pstr2];
      pstr := pstr2 + |old_|;
      pstr2 := Find(s, old_, pstr);
    }
    FoundAll(s, old_, found, pstr);
  }

  /** The matches found so far and those still to come are all. */
  ghost predicate Found(s: string, old_: string, found: seq<nat>, from: nat)
    requires old_ != "" && from <= |s|
  {
    found + Positions(s, old_, from) == Positions(s, old_, 0)
  }

  lemma FoundStart(s: string, old_: string)
    requires old_ != ""
    ensures Found(s, old_, [], 0)
  {
    hide Positions;
  }

  lemma FoundAll(s: string, old_: string, found: seq<nat>, from: nat)
    requires old_ != "" && from <= |s| && Find(s, old_, from) == -1 && Found(s, old_, found, from)
    ensures found == Positions(s, old_, 0)
  {
    PositionsNone(s, old_, from);
    hide Positions;
    assert found + [] == found;
  }

  lemma NoGrowth(grants: nat -> bool)
    ensures Growths(0) == 0 && Capacity(0) == 0 && Increment(0) == FIRST_INC && !Refused(grants, 0)
  {
  }

  lemma FoundNext(s: string, old_: string, found: seq<nat>, from: nat)
    requires old_ != "" && from <= |s| && Find(s, old_, from) != -1 && Found(s, old_, found, from)
    ensures |found| + 1 <= |Positions(s, old_, 0)| && Find(s, old_, from) + |old_| <= |s|
    ensures Found(s, old_, found + [Find(s, old_, from)], Find(s, old_, from) + |old_|)
  {
    hide Positions, Find;
    PositionsStep(s, old_, from);
    var i := Find(s, old_, from);
    assert (found + [i]) + Positions(s, old_, i + |old_|) == found + ([i] + Positions(s, old_, i + |old_|));
  }

  lemma RefusedMore(grants: nat -> bool, a: nat, b: nat)
    requires a <= b && Refused(grants, Growths(a))
    ensures Refused(grants, Growths(b))
  {
    GrowthsMonotonic(a, b);
    hide Growths;
  }

  /** One more match: the cache grows when it is full. */
  lemma GrowthStep(count: nat, grants: nat -> bool)
    requires 0 < count && !Refused(grants, Growths(count - 1))
    ensures var g := Growths(count - 1);
            && Growths(count) == (if Capacity(g) < count then g + 1 else g)
            && Capacity(g + 1) == Capacity(g) + Increment(g)
            && Increment(g + 1) == (if Increment(g) * INC_FACTOR > MAX_INC then MAX_INC else Increment(g) * INC_FACTOR)
            && (Capacity(g) < count ==> (Refused(grants, Growths(count)) <==> !grants(g)))
            && count - 1 <= Capacity(g) && count <= Capacity(g + 1)
  {
    GrowthsStep(count);
    hide Growths;
  }

  lemma GrowthsStep(count: nat)
    requires count > 0
    ensures var g := Growths(count - 1); Growths(count) == if Capacity(g) < count then g + 1 else g
  {
    hide Capacity;
  }

  lemma {:induction false} GrowthsMonotonic(a: nat, b: nat)
    requires a <= b
    ensures Growths(a) <= Growths(b)
    decreases b - a
  {
    if a < b {
      GrowthsMonotonic(a, b - 1);
    }
  }

  /** The text behind the first `i` matches and what stands between them. */
  ghost function Remaining(s: string, pos: seq<nat>, oldlen: nat, new_: string, i: nat): string
    requires i <= |pos| && (i < |pos| ==> Apart(s, pos[i..], oldlen, pos[i]))
  {
    if i == |pos| then "" else Splice(s, pos[i..], oldlen, new_, pos[i])
  }

  lemma {:induction false} ApartFrom(s: string, pos: seq<nat>, oldlen: nat, from: nat, i: nat)
    requires i < |pos| && Apart(s, pos, oldlen, from)
    ensures Apart(s, pos[i..], oldlen, pos[i]) && pos[i] + oldlen <= |s|
    ensures i + 1 < |pos| ==> pos[i] + oldlen <= pos[i + 1] && Apart(s, pos[i + 1..], oldlen, pos[i + 1])
    decreases i
  {
    if i > 0 {
      ApartFrom(s, pos[1..], oldlen, pos[0] + oldlen, i - 1);
      assert pos[1..][i - 1..] == pos[i..];
      if i + 1 < |pos| {
        assert pos[1..][i..] == pos[i + 1..];
      }
    } else {
      assert pos[0..] == pos;
      assert Apart(s, pos[1..], oldlen, pos[0] + oldlen);
      if 1 < |pos| {
        assert pos[1..][0] == pos[1] && pos[1..][1..] == pos[2..];
      }
    }
  }

  lemma RemainingStep(s: string, pos: seq<nat>, oldlen: nat, new_: string, i: nat)
    requires i < |pos| && Apart(s, pos, oldlen, 0)
    ensures Apart(s, pos[i..], oldlen, pos[i])
    ensures i + 1 < |pos| ==> Apart(s, pos[i + 1..], oldlen, pos[i + 1])
    ensures pos[i] + oldlen <= (if i + 1 < |pos| then pos[i + 1] else |s|) <= |s|
    ensures Remaining(s, pos, oldlen, new_, i)
         == new_ + s[pos[i] + oldlen..if i + 1 < |pos| then pos[i + 1] else |s|] + Remaining(s, pos, oldlen, new_, i + 1)
  {
    hide Apart, Splice, Remaining;
    ApartFrom(s, pos, oldlen, 0, i);
    var from := pos[i] + oldlen;
    var end := if i + 1 < |pos| then pos[i + 1] else |s|;
    RemainingIs(s, pos, oldlen, new_, i);
    SpliceOpens(s, pos, oldlen, new_, i + 1, from);
    Assoc(new_, s[from..end], Remaining(s, pos, oldlen, new_, i + 1));
  }

  lemma RemainingIs(s: string, pos: seq<nat>, oldlen: nat, new_: string, i: nat)
    requires i < |pos| && Apart(s, pos[i..], oldlen, pos[i])
    ensures pos[i] + oldlen <= |s| && Apart(s, pos[i + 1..], oldlen, pos[i] + oldlen)
    ensures Remaining(s, pos, oldlen, new_, i) == new_ + Splice(s, pos[i + 1..], oldlen, new_, pos[i] + oldlen)
  {
    hide Apart, Splice;
    assert pos[i..] == [pos[i]] + pos[i + 1..];
    SpliceCons(s, pos[i], pos[i + 1..], oldlen, new_, pos[i]);
    assert s[pos[i]..pos[i]] == "";
    assert "" + new_ == new_;
  }

  lemma SpliceOpens(s: string, pos: seq<nat>, oldlen: nat, new_: string, i: nat, from: nat)
    requires from <= |s| && i <= |pos| && Apart(s, pos[i..], oldlen, from)
    requires i < |pos| ==> Apart(s, pos[i..], oldlen, pos[i])
    ensures from <= (if i < |pos| then pos[i] else |s|) <= |s|
    ensures Splice(s, pos[i..], oldlen, new_, from)
         == s[from..if i < |pos| then pos[i] else |s|] + Remaining(s, pos, oldlen, new_, i)
  {
    hide Apart, Splice;
    if i < |pos| {
      assert pos[i..] == [pos[i]] + pos[i + 1..];
      SpliceCons(s, pos[i], pos[i + 1..], oldlen, new_, from);
      RemainingIs(s, pos, oldlen, new_, i);
      Assoc(s[from..pos[i]], new_, Splice(s, pos[i + 1..], oldlen, new_, pos[i] + oldlen));
    } else {
      assert pos[i..] == [];
      SpliceNone(s, oldlen, new_, from);
      assert s[from..] + "" == s[from..|s|];
    }
  }

  /** The second loop: the result, one match after the other. */
  method CopyAll(s: string, pos: array<nat>, count: nat, oldlen: nat, new_: string, retlen: nat) returns (ret: array<char>)
    requires 0 < count <= pos.Length && Apart(s, pos[..count], oldlen, 0)
    requires retlen == |Splice(s, pos[..count], oldlen, new_, 0)|
    ensures fresh(ret) && ret[..] == Splice(s, pos[..count], oldlen, new_, 0) + [NUL]
  {
    hide Apart, Splice, Remaining;
    ghost var p := pos[..count];
    ghost var result := Splice(s, p, oldlen, new_, 0);
    ret := new char[retlen + 1];
    FirstPiece(s, p, oldlen, new_);
    Copy(ret, 0, s[..pos[0]]);
    var pret: nat := pos[0];
    assert p[0] == pos[0];
    for i := 0 to count
      invariant fresh(ret) && ret.Length == retlen + 1 && pret <= retlen && pos[..count] == p
      invariant i < count ==> Apart(s, p[i..], oldlen, p[i])
      invariant ret[..pret] + Remaining(s, p, oldlen, new_, i) == result
    {
      RemainingStep(s, p, oldlen, new_, i);
      ghost var done := ret[..pret];
      assert p[i] == pos[i] && (i + 1 < count ==> p[i + 1] == pos[i + 1]);
      var end := if i == count - 1 then |s| else pos[i + 1];
      var piece := s[pos[i] + oldlen..end];
      assert done + (new_ + piece + Remaining(s, p, oldlen, new_, i + 1)) == result;
      Copy(ret, pret, new_);
      pret := pret + |new_|;
      Copy(ret, pret, piece);
      pret := pret + |piece|;
      assert ret[..pret] == done + new_ + piece;
      Assoc(done, new_ + piece, Remaining(s, p, oldlen, new_, i + 1));
      Assoc(done, new_, piece);
    }
    RemainingNone(s, p, oldlen, new_);
    assert ret[..pret] + "" == ret[..pret] == result && pret == retlen;
    ret[retlen] := NUL;
    assert ret[..retlen] == result && ret[..] == ret[..retlen] + [NUL];
  }

  lemma RemainingNone(s: string, pos: seq<nat>, oldlen: nat, new_: string)
    ensures Remaining(s, pos, oldlen, new_, |pos|) == ""
  {
  }

  lemma FirstPiece(s: string, pos: seq<nat>, oldlen: nat, new_: string)
    requires pos != [] && Apart(s, pos, oldlen, 0)
    ensures Apart(s, pos[0..], oldlen, pos[0])
    ensures pos[0] <= |s| && s[..pos[0]] + Remaining(s, pos, oldlen, new_, 0) == Splice(s, pos, oldlen, new_, 0)
    ensures pos[0] <= |Splice(s, pos, oldlen, new_, 0)|
  {
    assert pos[0..] == pos;
    var rest := Splice(s, pos[1..], oldlen, new_, pos[0] + oldlen);
    assert Remaining(s, pos, oldlen, new_, 0) == s[pos[0]..pos[0]] + new_ + rest == new_ + rest;
    Assoc(s[0..pos[0]], new_, rest);
    assert s[0..pos[0]] == s[..pos[0]];
  }

  /** `strreplace`: null exactly when a request for memory is refused, otherwise the replaced text and its
      terminator in a block that fits it exactly. */
  method StrReplace(s: string, old_: string, new_: string, grants: nat -> bool) returns (ret: array?<char>)
    requires old_ != "" && |Replace(s, old_, new_)| < WORD - 1
    ensures ret == null <==> Refused(grants, Growths(|Positions(s, old_, 0)|) + 1)
    ensures ret != null ==> ret[..] == Replace(s, old_, new_) + [NUL]
  {
    hide Find, At, Positions, Apart, Splice, Replace, RetLen, Growths, Capacity;
    ret := null;
    var cache, count, ok := FindAll(s, old_, grants);
    if !ok {
      return;
    }
    var retlen := if count > 0 then RetLen(|s|, |new_|, |old_|, count) else |s|;
    Replaced(s, old_, new_);
    LengthExact(s, old_, new_);
    if !grants(Growths(count)) {
      return;
    }
    if count == 0 {
      SpliceNone(s, |old_|, new_, 0);
      ret := new char[retlen + 1];
      Copy(ret, 0, s + [NUL]);
      assert ret[..] == ret[..retlen + 1];
    } else {
      var block := CopyAll(s, cache, count, |old_|, new_, retlen);
      ret := block;
    }
  }

  /** Replacing goes on behind the leftmost match, and without a match changes nothing. */
  lemma ReplaceLeftmost(a: string, old_: string, b: string, new_: string)
    requires old_ != "" && forall k :: 0 <= k < |a| ==> !At(a + old_ + b, old_, k)
    ensures Replace(a + old_ + b, old_, new_) == a + new_ + Replace(b, old_, new_)
  {
    hide Replace;
    var s := a + old_ + b;
    assert s[0..] == s && s[0..|a|] == a && s[|a|..|a| + |old_|] == old_ && s[|a| + |old_|..] == b;
    KeepsBeforeMatch(s, old_, new_, 0, |a|);
    ReplaceAtMatch(s, old_, new_, |a|);
    Assoc(a, new_, Replace(b, old_, new_));
  }

  lemma ReplaceAbsent(s: string, old_: string, new_: string)
    requires old_ != "" && forall k :: 0 <= k <= |s| ==> !At(s, old_, k)
    ensures Replace(s, old_, new_) == s
  {
    KeepsBeforeMatch(s, old_, new_, 0, |s|);
    assert s[0..] == s && s[0..|s|] == s && s[|s|..] == "";
  }
}
