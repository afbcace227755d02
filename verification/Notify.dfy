/** The notifications airVantage.c prints for the board, and what SwiBridge.cpp reads out of them. */
module Notify {
  import opened Decimal
  import opened Text

  const MAX_MSG_LEN: nat := 256

  // The Arduino `String`.

  function IndexOf(s: string, p: string): int {
    if s == "" then -1 else Find(s, p, 0)
  }

  function Substring(s: string, left: nat, right: nat): string {
    var lo, hi := if left > right then right else left, if left > right then left else right;
    if lo > |s| then "" else s[lo..if hi > |s| then |s| else hi]
  }

  function Tail(s: string, left: nat): string { Substring(s, left, |s|) }

  predicate StartsWith(s: string, p: string) { At(s, p, 0) }

  // The printer.

  predicate Barless(s: string) { forall k :: 0 <= k < |s| ==> s[k] != '|' }

  function Full(key: string, value: string, ts: string): string { "|" + key + "|" + value + "|" + ts }

  /** `snprintf` of `|%s|%s|%s`: what does not fit is cut off. */
  function Message(key: string, value: string, ts: string): (s: string)
    ensures |s| < MAX_MSG_LEN
  {
    var s := Full(key, value, ts);
    if |s| < MAX_MSG_LEN then s else s[..MAX_MSG_LEN - 1]
  }

  predicate Whole(key: string, value: string, ts: string) { 3 + |key| + |value| + |ts| < MAX_MSG_LEN }

  // The parsers.

  function ParseString(name: string, msg: string): string {
    var nameIdx := IndexOf(msg, name);
    if StartsWith(msg, "|") && nameIdx != -1 then
      var valueStr := Tail(msg, nameIdx + |name| + 1);
      if IndexOf(valueStr, "|") != -1 then Substring(valueStr, 0, IndexOf(valueStr, "|")) else ""
    else ""
  }

  function ParseTimestamp(name: string, msg: string): string {
    var nameIdx := IndexOf(msg, name);
    if StartsWith(msg, "|") && nameIdx != -1 then
      var valueStr := Tail(msg, nameIdx + |name| + 1);
      var ret := Tail(valueStr, IndexOf(valueStr, "|") + 1);
      if IndexOf(ret, "|") != -1 then Substring(ret, 0, IndexOf(ret, "|")) else ret
    else ""
  }

  function ParseInteger(name: string, msg: string): int {
    var nameIdx := IndexOf(msg, name);
    if StartsWith(msg, "|") && nameIdx != -1 then
      var valueStr := Tail(msg, nameIdx + |name| + 1);
      Parse(if IndexOf(valueStr, "|") != -1 then Substring(valueStr, 0, IndexOf(valueStr, "|")) else valueStr)
    else 0
  }

  function ParseBoolean(name: string, msg: string): bool {
    var nameIdx := IndexOf(msg, name);
    if StartsWith(msg, "|") && nameIdx != -1 then
      var valueStr := Tail(msg, nameIdx + |name| + 1);
      Parse(if IndexOf(valueStr, "|") != -1 then Substring(valueStr, 0, IndexOf(valueStr, "|")) else valueStr) != 0
    else false
  }

  // What the parsers see.

  /** A text up to its first bar. */
  lemma UpToBar(field: string, rest: string)
    requires Barless(field)
    ensures var s := field + rest;
            rest != "" && rest[0] == '|' ==> IndexOf(s, "|") == |field| && Substring(s, 0, |field|) == field
    ensures rest == "" ==> IndexOf(field + rest, "|") == -1
  {
    var s := field + rest;
    forall k | 0 <= k < |field| ensures !At(s, "|", k) {
      assert s[k..k + 1][0] == field[k];
    }
    if rest != "" && rest[0] == '|' {
      assert s[|field|..|field| + 1] == "|";
      FindIs(s, "|", 0, |field|);
      assert s[0..|field|] == field;
    } else if rest == "" && s != "" {
      FindNone(s, "|", 0);
    }
  }

  /** The name is found where it was printed, right behind the first bar. */
  lemma FindsName(key: string, after: string)
    requires key != "" && Barless(key)
    ensures var msg := "|" + key + after;
            StartsWith(msg, "|") && IndexOf(msg, key) == 1 && (after != "" ==> Tail(msg, |key| + 2) == after[1..])
  {
    var msg := "|" + key + after;
    assert msg[0..1] == "|";
    assert msg[0..|key|][0] == '|';
    assert msg[1..1 + |key|] == key;
    FindIs(msg, key, 0, 1);
    if after != "" {
      assert msg[|key| + 2..] == after[1..];
    }
  }

  lemma Layout(key: string, value: string, ts: string, rest: string)
    requires Whole(key, value, ts)
    ensures Message(key, value, ts) + rest == "|" + key + ("|" + value + ("|" + ts + rest))
  {
    assert Message(key, value, ts) == Full(key, value, ts);
  }

  /** What may stand behind a message in the receive buffer: nothing, or the next message. */
  predicate Follows(rest: string) { rest == "" || rest[0] == '|' }

  /** The round trip, for a key that is not empty. */
  lemma RoundTrip(key: string, value: string, ts: string, rest: string)
    requires key != "" && Barless(key) && Barless(value) && Barless(ts) && Follows(rest)
    requires Whole(key, value, ts)
    ensures ParseString(key, Message(key, value, ts) + rest) == value
    ensures ParseTimestamp(key, Message(key, value, ts) + rest) == ts
  {
    hide Message, Full, IndexOf, Substring, StartsWith;
    var tail := "|" + ts + rest;
    var after := "|" + value + tail;
    Layout(key, value, ts, rest);
    FindsName(key, after);
    assert after[1..] == value + tail;
    UpToBar(value, tail);
    assert Tail(value + tail, |value| + 1) == ts + rest by {
      AfterBar(value, ts + rest);
      assert tail == "|" + (ts + rest);
    }
    UpToBar(ts, rest);
    assert ts + "" == ts;
  }

  lemma TailIs(s: string, n: nat)
    requires n <= |s|
    ensures Tail(s, n) == s[n..]
  {
  }

  lemma StartsAtBar(s: string)
    requires s != "" && s[0] == '|'
    ensures StartsWith(s, "|")
  {
    assert s[0..1] == "|";
  }

  lemma AfterBar(field: string, rest: string)
    ensures Tail(field + ("|" + rest), |field| + 1) == rest
  {
    var s := field + ("|" + rest);
    assert s[|field| + 1..] == rest;
  }

  /** Integers and booleans come back as numbers. */
  lemma IntegerRoundTrip(key: string, v: int, ts: string, rest: string)
    requires key != "" && Barless(key) && Barless(ts) && Follows(rest)
    requires Whole(key, Print(v), ts)
    ensures ParseInteger(key, Message(key, Print(v), ts) + rest) == v
    ensures ParseBoolean(key, Message(key, Print(v), ts) + rest) == (v != 0)
  {
    hide Message, Full, IndexOf, Substring, StartsWith, Parse, Print;
    var tail := "|" + ts + rest;
    var after := "|" + Print(v) + tail;
    Layout(key, Print(v), ts, rest);
    FindsName(key, after);
    assert after[1..] == Print(v) + tail;
    PrintBarless(v);
    UpToBar(Print(v), tail);
    ParsePrint(v, "");
    assert Print(v) + "" == Print(v);
  }

  lemma PrintBarless(v: int)
    ensures Barless(Print(v))
  {
    hide Digits;
    PrintShape(v);
    var s := Print(v);
    forall k | 0 <= k < |s| ensures s[k] != '|' {
      assert k > 0 ==> s[k] == s[1..][k - 1];
    }
  }

  // Where the round trip ends.

  /** A message with an empty key gives the empty text for its value and its value for its time. */
  lemma EmptyKey(value: string, ts: string, rest: string)
    requires Barless(value) && Barless(ts) && Follows(rest)
    requires Whole("", value, ts)
    ensures ParseString("", Message("", value, ts) + rest) == ""
    ensures ParseTimestamp("", Message("", value, ts) + rest) == value
  {
    hide Message, Full, Substring, StartsWith;
    var tail := "|" + ts + rest;
    var msg := Message("", value, ts) + rest;
    Layout("", value, ts, rest);
    assert "|" + "" + ("|" + value + tail) == "||" + value + tail;
    assert msg == "||" + value + tail;
    StartsAtBar(msg);
    assert IndexOf(msg, "") == 0 by { assert msg[0..0] == ""; FindIs(msg, "", 0, 0); }
    var valueStr := "|" + value + tail;
    TailIs(msg, 1);
    assert msg[1..] == valueStr;
    assert valueStr == "" + ("|" + (value + tail));
    UpToBar("", valueStr);
    assert "" + valueStr == valueStr;
    AfterBar("", value + tail);
    UpToBar(value, tail);
  }

  /** A text up to its first bar. */
  function Field(s: string): string {
    if IndexOf(s, "|") != -1 then Substring(s, 0, IndexOf(s, "|")) else s
  }

  /** What of a timestamp the buffer of the printer has place for. */
  function KeptTime(key: string, value: string, ts: string): string
    requires 3 + |key| + |value| < MAX_MSG_LEN
  {
    var n := MAX_MSG_LEN - 1 - 3 - |key| - |value|;
    if |ts| <= n then ts else ts[..n]
  }

  /** A message that holds the bar behind its value gives the value back and as much of the timestamp as it kept. */
  lemma CutInTime(key: string, value: string, ts: string, rest: string)
    requires key != "" && Barless(key) && Barless(value) && Barless(ts) && Follows(rest)
    requires 3 + |key| + |value| < MAX_MSG_LEN
    ensures ParseString(key, Message(key, value, ts) + rest) == value
    ensures ParseTimestamp(key, Message(key, value, ts) + rest) == KeptTime(key, value, ts)
  {
    var kept := KeptTime(key, value, ts);
    assert Message(key, value, ts) == Message(key, value, kept);
    RoundTrip(key, value, kept, rest);
  }

  /** A message cut in its value: on its own, it has no value and the rest of its value for a time; with another message
      behind it, the rest of its value is its value, and the first field of the other message its time. */
  lemma CutInValue(key: string, value: string, ts: string, rest: string)
    requires key != "" && Barless(key) && Barless(value) && Follows(rest)
    requires 2 + |key| < MAX_MSG_LEN <= 3 + |key| + |value|
    ensures var cut, msg := value[..MAX_MSG_LEN - 3 - |key|], Message(key, value, ts) + rest;
            && (rest == "" ==> ParseString(key, msg) == "" && ParseTimestamp(key, msg) == cut)
            && (rest != "" ==> ParseString(key, msg) == cut && ParseTimestamp(key, msg) == Field(rest[1..]))
  {
    hide IndexOf, Substring, StartsWith;
    var cut, msg := value[..MAX_MSG_LEN - 3 - |key|], Message(key, value, ts) + rest;
    var after := "|" + cut + rest;
    assert msg == "|" + key + after;
    FindsName(key, after);
    assert after[1..] == cut + rest;
    UpToBar(cut, rest);
    assert cut + "" == cut;
    if rest == "" {
      TailIs(cut, 0);
    } else {
      assert rest == "|" + rest[1..];
      AfterBar(cut, rest[1..]);
    }
  }

  /** A message cut before the bar behind its key tells the board nothing. */
  lemma CutInKey(key: string, value: string, ts: string)
    requires MAX_MSG_LEN <= 2 + |key|
    ensures ParseString(key, Message(key, value, ts)) == ""
    ensures ParseTimestamp(key, Message(key, value, ts)) == ""
  {
    var msg := Message(key, value, ts);
    var i := IndexOf(msg, key);
    if i != -1 {
      assert At(msg, key, i);
      if i == 0 {
        assert msg[0..|key|] == key;
      }
      assert Tail(msg, i + |key| + 1) == "";
    }
  }

  /** Exactly which values the board reads back from a message on its own. */
  lemma ValueSurvives(key: string, value: string, ts: string)
    requires key != "" && Barless(key) && Barless(value) && Barless(ts)
    ensures ParseString(key, Message(key, value, ts)) == value
        <==> (3 + |key| + |value| < MAX_MSG_LEN || value == "")
  {
    hide ParseString, ParseTimestamp, Message;
    Alone(key, value, ts);
  }

  /** Exactly which timestamps it reads back: the whole ones, and those that what is read instead happens to be. */
  lemma TimestampSurvives(key: string, value: string, ts: string)
    requires key != "" && Barless(key) && Barless(value) && Barless(ts)
    ensures ParseTimestamp(key, Message(key, value, ts)) == ts
        <==> (Whole(key, value, ts)
             || (2 + |key| < MAX_MSG_LEN <= 3 + |key| + |value| && ts == value[..MAX_MSG_LEN - 3 - |key|])
             || (MAX_MSG_LEN <= 2 + |key| && ts == ""))
  {
    hide ParseString, ParseTimestamp, Message;
    Alone(key, value, ts);
  }

  lemma Alone(key: string, value: string, ts: string)
    requires key != "" && Barless(key) && Barless(value) && Barless(ts)
    ensures var msg := Message(key, value, ts);
            if 3 + |key| + |value| < MAX_MSG_LEN then
              ParseString(key, msg) == value && ParseTimestamp(key, msg) == KeptTime(key, value, ts)
            else
              ParseString(key, msg) == "" && ParseTimestamp(key, msg)
              == if 2 + |key| < MAX_MSG_LEN then value[..MAX_MSG_LEN - 3 - |key|] else ""
  {
    hide ParseString, ParseTimestamp, Message;
    var msg := Message(key, value, ts);
    assert msg + "" == msg;
    if 3 + |key| + |value| < MAX_MSG_LEN {
      CutInTime(key, value, ts, "");
    } else if 2 + |key| < MAX_MSG_LEN {
      CutInValue(key, value, ts, "");
    } else {
      CutInKey(key, value, ts);
    }
  }

  /** Exactly which values it reads back when another message stands behind. */
  lemma ValueSurvivesFollowed(key: string, value: string, ts: string, rest: string)
    requires key != "" && Barless(key) && Barless(value) && Barless(ts)
    requires rest != "" && rest[0] == '|' && 2 + |key| < MAX_MSG_LEN
    ensures ParseString(key, Message(key, value, ts) + rest) == value <==> 2 + |key| + |value| < MAX_MSG_LEN
  {
    hide ParseString, ParseTimestamp, Message;
    if 3 + |key| + |value| < MAX_MSG_LEN {
      CutInTime(key, value, ts, rest);
    } else {
      CutInValue(key, value, ts, rest);
    }
  }

  // Any buffer.

  /** What is printed: the four parts, cut to 255 characters. */
  lemma MessageIs(key: string, value: string, ts: string)
    ensures var m, full := Message(key, value, ts), "|" + key + "|" + value + "|" + ts;
            m == full[..|m|] && |m| == if 3 + |key| + |value| + |ts| <= 255 then 3 + |key| + |value| + |ts| else 255
  {
  }

  /** A buffer that does not start with a bar, or in which the name does not stand, tells nothing. */
  lemma NotNamed(name: string, msg: string)
    requires msg == "" || msg[0] != '|' || forall k :: 0 <= k <= |msg| ==> !At(msg, name, k)
    ensures ParseString(name, msg) == "" && ParseTimestamp(name, msg) == ""
    ensures ParseInteger(name, msg) == 0 && !ParseBoolean(name, msg)
  {
    if msg != "" && msg[0] == '|' {
      FindNone(msg, name, 0);
    } else if msg != "" {
      assert msg[0..1][0] == msg[0];
    }
  }

  /** The name is looked for in the whole buffer: behind other messages it is found at its first place. */
  lemma FindsNameBehind(front: string, key: string, after: string)
    requires front == "" || front[0] == '|'
    requires forall k :: 0 <= k <= |front| ==> !At(front + ("|" + key + after), key, k)
    ensures var msg := front + ("|" + key + after);
            StartsWith(msg, "|") && IndexOf(msg, key) == |front| + 1
            && (after != "" ==> Tail(msg, |front| + |key| + 2) == after[1..])
  {
    var msg := front + ("|" + key + after);
    StartsAtBar(msg);
    BehindBar(front, key, after);
    FindIs(msg, key, 0, |front| + 1);
  }

  lemma BehindBar(front: string, key: string, after: string)
    ensures var msg := front + ("|" + key + after);
            At(msg, key, |front| + 1) && (after != "" ==> Tail(msg, |front| + |key| + 2) == after[1..])
  {
    var msg := front + ("|" + key + after);
    assert msg[|front| + 1..|front| + 1 + |key|] == key;
    if after != "" {
      assert msg[|front| + |key| + 2..] == after[1..];
    }
  }

  /** The round trip behind other messages in which the key does not stand. */
  lemma RoundTripBehind(front: string, key: string, value: string, ts: string, rest: string)
    requires front == "" || front[0] == '|'
    requires Barless(value) && Barless(ts) && Follows(rest) && Whole(key, value, ts)
    requires forall k :: 0 <= k <= |front| ==> !At(front + (Message(key, value, ts) + rest), key, k)
    ensures ParseString(key, front + (Message(key, value, ts) + rest)) == value
    ensures ParseTimestamp(key, front + (Message(key, value, ts) + rest)) == ts
  {
    hide Message, Full, IndexOf, Substring, StartsWith, At;
    var tail := "|" + ts + rest;
    var after := "|" + value + tail;
    Layout(key, value, ts, rest);
    FindsNameBehind(front, key, after);
    assert after[1..] == value + tail;
    UpToBar(value, tail);
    AfterBar(value, ts + rest);
    assert tail == "|" + (ts + rest);
    UpToBar(ts, rest);
    assert ts + "" == ts;
  }
}
