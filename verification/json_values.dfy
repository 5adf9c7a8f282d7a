/** JSON values as Python holds them, compares them, and writes and reads them back. */
module JsonValues {

  /** A text is a sequence of code points, among which Python also lets halves of a surrogate pair
      stand: bytes that encode them are read with `surrogatepass`. */
  type CodePoint = x: int | 0 <= x < 0x11_0000

  type Points = seq<CodePoint>

  /** What a written text spells out: sixteen bits at a time. */
  type CodeUnit = x: int | 0 <= x < 0x1_0000

  /** The reader also accepts NaN and the infinities. An object is its members in the order they are
      written; a later member replaces an earlier one of the same key. */
  datatype Value =
    | Null
    | Truth(holds: bool)
    | Number(value: real)
    | Infinity(negative: bool)
    | NaN
    | Text(points: Points)
    | ListOf(items: seq<Value>)
    | ObjectOf(members: seq<Member>)

  datatype Member = Member(key: Points, value: Value)

  // ---------------------------------------------------------------- equality

  /** The number a value counts as: truth values are one and zero. */
  predicate Numeric(v: Value) {
    v.Number? || v.Truth?
  }

  function NumberOf(v: Value): real
    requires Numeric(v)
  {
    if v.Number? then v.value else if v.holds then 1.0 else 0.0
  }

  /** Member `i` counts: no later one replaces it. */
  predicate Shown(members: seq<Member>, i: nat) {
    i < |members| && forall j :: i < j < |members| ==> members[j].key != members[i].key
  }

  /** `==` inside a list or an object. The reader returns one NaN object, which containers find equal
      to itself. */
  predicate Equal(a: Value, b: Value) {
    if Numeric(a) && Numeric(b) then NumberOf(a) == NumberOf(b)
    else
      match a
      case Null => b.Null?
      case Infinity(negative) => b == Infinity(negative)
      case NaN => b.NaN?
      case Text(points) => b == Text(points)
      case ListOf(items) =>
        b.ListOf? && |items| == |b.items| && forall i :: 0 <= i < |items| ==> Equal(items[i], b.items[i])
      case ObjectOf(members) =>
        && b.ObjectOf?
        && (forall i :: 0 <= i < |members| && Shown(members, i) ==>
              exists j :: 0 <= j < |b.members| && Same(members, b.members, i, j))
        && (forall j :: 0 <= j < |b.members| && Shown(b.members, j) ==>
              exists i :: 0 <= i < |members| && Same(members, b.members, i, j))
      case _ => false
  }

  /** Two members that count have the same key and equal values. */
  predicate Same(a: seq<Member>, b: seq<Member>, i: nat, j: nat)
    requires i < |a| && j < |b|
  {
    Shown(a, i) && Shown(b, j) && a[i].key == b[j].key && Equal(a[i].value, b[j].value)
  }

  /** A truth value equals the number it counts as, and no other; texts and lists equal no number. */
  lemma TruthCounts(holds: bool, x: real)
    ensures Equal(Truth(holds), Number(x)) <==> x == if holds then 1.0 else 0.0
    ensures Equal(Number(x), Truth(holds)) <==> x == if holds then 1.0 else 0.0
    ensures !Equal(Null, Truth(holds)) && !Equal(Text([]), Truth(holds)) && !Equal(ListOf([]), Number(x))
  {
  }

  lemma {:induction false} EqualsItself(v: Value)
    ensures Equal(v, v)
    decreases v
  {
    match v {
      case ListOf(items) =>
        forall i | 0 <= i < |items| ensures Equal(items[i], items[i]) { EqualsItself(items[i]); }
      case ObjectOf(members) =>
        forall i | 0 <= i < |members| && Shown(members, i) ensures Same(members, members, i, i) {
          EqualsItself(members[i].value);
        }
      case _ =>
    }
  }

  // ---------------------------------------------------------------- texts

  predicate IsHigh(x: int) { 0xD800 <= x < 0xDC00 }

  predicate IsLow(x: int) { 0xDC00 <= x < 0xE000 }

  function HighOf(x: CodePoint): (high: CodeUnit)
    requires x >= 0x1_0000
    ensures IsHigh(high)
  {
    0xD800 + (x - 0x1_0000) / 0x400
  }

  function LowOf(x: CodePoint): (low: CodeUnit)
    requires x >= 0x1_0000
    ensures IsLow(low)
  {
    0xDC00 + (x - 0x1_0000) % 0x400
  }

  function Joined(high: int, low: int): (x: CodePoint)
    requires IsHigh(high) && IsLow(low)
    ensures x >= 0x1_0000 && HighOf(x) == high && LowOf(x) == low
  {
    0x1_0000 + (high - 0xD800) * 0x400 + (low - 0xDC00)
  }

  /** A high surrogate directly followed by a low one. */
  predicate PairAt(t: seq<int>, i: int) {
    0 <= i < |t| - 1 && IsHigh(t[i]) && IsLow(t[i + 1])
  }

  predicate HasPair(t: Points) {
    exists i :: 0 <= i < |t| - 1 && PairAt(t, i)
  }

  /** The writer: every code point beyond sixteen bits becomes a surrogate pair. */
  function Written(t: Points): seq<CodeUnit> {
    if t == [] then []
    else
      (if t[0] < 0x1_0000 then [t[0]] else [HighOf(t[0]), LowOf(t[0])]) + Written(t[1..])
  }

  /** The reader: every surrogate pair becomes one code point, and a half that stands alone stays. */
  function ReadUnits(u: seq<CodeUnit>): Points {
    if u == [] then []
    else if |u| > 1 && IsHigh(u[0]) && IsLow(u[1])
    then [Joined(u[0], u[1])] + ReadUnits(u[2..])
    else [u[0]] + ReadUnits(u[1..])
  }

  function Reread(t: Points): Points {
    ReadUnits(Written(t))
  }

  /** A pair in `[x] + t` is one in `t`, or `x` is its first half. */
  lemma PairIn(x: CodePoint, t: Points)
    ensures HasPair([x] + t) <==> HasPair(t) || (t != [] && IsHigh(x) && IsLow(t[0]))
  {
    var whole := [x] + t;
    forall i | PairAt(t, i) ensures PairAt(whole, i + 1) { assert whole[i + 1] == t[i] && whole[i + 2] == t[i + 1]; }
    if t != [] && IsHigh(x) && IsLow(t[0]) { assert PairAt(whole, 0); }
    forall i | PairAt(whole, i) && i > 0 ensures PairAt(t, i - 1) {
      assert whole[i] == t[i - 1] && whole[i + 1] == t[i];
    }
  }

  lemma FirstUnit(t: Points)
    requires t != []
    ensures Written(t) != []
    ensures IsLow(Written(t)[0]) <==> IsLow(t[0])
  {
  }

  /** Without a pair nothing is lost, and with one it is. */
  lemma {:induction false} RereadSame(t: Points)
    requires !HasPair(t)
    ensures Reread(t) == t
    decreases |t|
  {
    if t != [] {
      var x, rest := t[0], t[1..];
      assert t == [x] + rest;
      PairIn(x, rest);
      RereadSame(rest);
      if rest != [] { FirstUnit(rest); }
      if x < 0x1_0000 {
        assert Written(t) == [x] + Written(rest);
        assert Written(t)[1..] == Written(rest);
      } else {
        assert Joined(HighOf(x), LowOf(x)) == x;
        assert Written(t) == [HighOf(x), LowOf(x)] + Written(rest);
        assert Written(t)[2..] == Written(rest);
      }
    }
  }

  /** What was read back has no pair left. */
  lemma {:induction false} ReadHasNoPair(u: seq<CodeUnit>)
    ensures !HasPair(ReadUnits(u))
    ensures u != [] ==> ReadUnits(u) != []
    ensures u != [] && IsLow(ReadUnits(u)[0]) ==> IsLow(u[0])
    decreases |u|
  {
    if u != [] {
      if |u| > 1 && IsHigh(u[0]) && IsLow(u[1]) {
        ReadHasNoPair(u[2..]);
        PairIn(Joined(u[0], u[1]), ReadUnits(u[2..]));
      } else {
        ReadHasNoPair(u[1..]);
        PairIn(u[0], ReadUnits(u[1..]));
      }
    }
  }

  /** A text of characters: no half of a pair is one. */
  function Characters(s: string): Points {
    seq(|s|, i requires 0 <= i < |s| => s[i] as int)
  }

  lemma CharactersHaveNoPair(s: string)
    ensures !HasPair(Characters(s))
  {
  }

  // ---------------------------------------------------------------- values

  /** What is read back of a written value. */
  function ReadBack(v: Value): Value {
    match v
    case Text(points) => Text(Reread(points))
    case ListOf(items) => ListOf(seq(|items|, i requires 0 <= i < |items| => ReadBack(items[i])))
    case ObjectOf(members) =>
      ObjectOf(seq(|members|, i requires 0 <= i < |members| =>
        Member(Reread(members[i].key), ReadBack(members[i].value))))
    case _ => v
  }

  /** No text and no key that counts, at any depth, has a surrogate pair. */
  predicate Whole(v: Value) {
    match v
    case Text(points) => !HasPair(points)
    case ListOf(items) => forall i :: 0 <= i < |items| ==> Whole(items[i])
    case ObjectOf(members) =>
      forall i :: 0 <= i < |members| && Shown(members, i) ==> !HasPair(members[i].key) && Whole(members[i].value)
    case _ => true
  }

  lemma {:induction false} ReadBackIsWhole(v: Value)
    ensures Whole(ReadBack(v))
    decreases v
  {
    match v {
      case Text(points) => ReadHasNoPair(Written(points));
      case ListOf(items) =>
        forall i | 0 <= i < |items| ensures Whole(ReadBack(items[i])) { ReadBackIsWhole(items[i]); }
      case ObjectOf(members) =>
        forall i | 0 <= i < |members| ensures !HasPair(Reread(members[i].key)) && Whole(ReadBack(members[i].value)) {
          ReadHasNoPair(Written(members[i].key));
          ReadBackIsWhole(members[i].value);
        }
      case _ =>
    }
  }

  /** Equal values are both whole or neither is. */
  lemma {:induction false} WholeEqual(a: Value, b: Value)
    requires Equal(a, b) && Whole(a)
    ensures Whole(b)
    decreases b
  {
    if b.ListOf? {
      forall i | 0 <= i < |b.items| ensures Whole(b.items[i]) { WholeEqual(a.items[i], b.items[i]); }
    } else if b.ObjectOf? {
      forall j | 0 <= j < |b.members| && Shown(b.members, j)
        ensures !HasPair(b.members[j].key) && Whole(b.members[j].value)
      {
        var i :| 0 <= i < |a.members| && Same(a.members, b.members, i, j);
        WholeEqual(a.members[i].value, b.members[j].value);
      }
    }
  }

  /** Every key is that of a member that counts. */
  lemma {:induction false} LastOfKey(members: seq<Member>, i: nat) returns (j: nat)
    requires i < |members|
    ensures i <= j && Shown(members, j) && members[j].key == members[i].key
    decreases |members| - i
  {
    j := i;
    if !Shown(members, i) {
      var k :| i < k < |members| && members[k].key == members[i].key;
      j := LastOfKey(members, k);
    }
  }

  /** A value comes back equal exactly when it is whole. */
  lemma {:induction false} ReadBackEqual(v: Value)
    ensures Equal(ReadBack(v), v) <==> Whole(v)
    decreases v
  {
    if Whole(v) {
      WholeComesBack(v);
    }
    if Equal(ReadBack(v), v) {
      ReadBackIsWhole(v);
      WholeEqual(ReadBack(v), v);
    }
  }

  lemma {:induction false} WholeComesBack(v: Value)
    requires Whole(v)
    ensures Equal(ReadBack(v), v)
    decreases v
  {
    match v {
      case Text(points) => RereadSame(points);
      case ListOf(items) =>
        forall i | 0 <= i < |items| ensures Equal(ReadBack(items[i]), items[i]) { WholeComesBack(items[i]); }
      case ObjectOf(members) =>
        var back := ReadBack(v).members;
        KeysComeBack(members, back);
        forall i | 0 <= i < |members| && Shown(members, i) ensures Same(back, members, i, i) {
          WholeComesBack(members[i].value);
        }
      case _ =>
    }
  }

  /** Whole keys come back as they were, and with them which members count. */
  lemma KeysComeBack(members: seq<Member>, back: seq<Member>)
    requires |back| == |members| && forall i :: 0 <= i < |members| ==> back[i].key == Reread(members[i].key)
    requires forall i :: 0 <= i < |members| && Shown(members, i) ==> !HasPair(members[i].key)
    ensures forall i :: 0 <= i < |members| ==> back[i].key == members[i].key
    ensures forall i :: 0 <= i < |members| ==> (Shown(back, i) <==> Shown(members, i))
  {
    forall i | 0 <= i < |members| ensures back[i].key == members[i].key {
      var j := LastOfKey(members, i);
      RereadSame(members[i].key);
    }
  }

  /** How deep lists and objects nest. */
  function Nesting(v: Value): nat {
    match v
    case ListOf(items) => 1 + Deepest(seq(|items|, i requires 0 <= i < |items| => Nesting(items[i])))
    case ObjectOf(members) =>
      1 + Deepest(seq(|members|, i requires 0 <= i < |members| =>
        if Shown(members, i) then Nesting(members[i].value) else 0))
    case _ => 0
  }

  function Deepest(depths: seq<nat>): nat {
    if depths == [] then 0
    else
      var rest := Deepest(depths[1..]);
      if depths[0] > rest then depths[0] else rest
  }

  lemma NestingOfOne(v: Value, key: Points)
    ensures Nesting(ListOf([v])) == 1 + Nesting(v)
    ensures Nesting(ObjectOf([Member(key, v)])) == 1 + Nesting(v)
  {
    assert Shown([Member(key, v)], 0);
    forall depths: seq<nat> | |depths| == 1 ensures Deepest(depths) == depths[0] { assert depths[1..] == []; }
  }
}
