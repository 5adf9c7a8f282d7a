/** Debian dependency relations: the parser of the skopeo closure check and its printer
    (Debian Policy Manual, section 7.1). */
module Relations {
  import opened Bytes
  import opened Text

  /** One alternative of a dependency group. The operator and the version come together. */
  datatype Relation = Relation(name: string, qualifier: Option<string>, constraint: Option<Constraint>)

  datatype Constraint = Constraint(operator: string, version: string)

  type Group = seq<Relation>

  /** The operators in the order the pattern tries them. */
  const OPERATORS: seq<string> := ["<<", "<=", "=", ">=", ">>", "<", ">"]

  // ---------------------------------------------------------------- character classes

  predicate IsSpace(c: char) {
    || '\t' <= c <= '\r' || '\U{1c}' <= c <= ' ' || c == '\U{85}' || c == '\U{a0}' || c == '\U{1680}'
    || '\U{2000}' <= c <= '\U{200a}' || c == '\U{2028}' || c == '\U{2029}' || c == '\U{202f}'
    || c == '\U{205f}' || c == '\U{3000}'
  }

  predicate IsAlphanumeric(c: char) {
    'a' <= c <= 'z' || 'A' <= c <= 'Z' || '0' <= c <= '9'
  }

  predicate IsNameChar(c: char) {
    IsAlphanumeric(c) || c == '+' || c == '.' || c == '-'
  }

  predicate IsQualifierChar(c: char) {
    IsAlphanumeric(c) || c == '_' || c == '-'
  }

  predicate IsVersionChar(c: char) {
    c != '(' && c != ')' && !IsSpace(c)
  }

  const LOWER := "abcdefghijklmnopqrstuvwxyz"
  const UPPER := "ABCDEFGHIJKLMNOPQRSTUVWXYZ"
  const DECIMAL := "0123456789"

  /** A text of consecutive characters holds exactly those. */
  lemma Consecutive(text: string, first: char, last: char, c: char)
    requires first <= last && |text| == last as int - first as int + 1
    requires forall i :: 0 <= i < |text| ==> text[i] as int == first as int + i
    ensures c in text <==> first <= c <= last
  {
    if first <= c <= last { assert text[c as int - first as int] == c; }
  }

  lemma LowerLetters(c: char)
    ensures c in LOWER <==> 'a' <= c <= 'z'
  {
    Consecutive(LOWER, 'a', 'z', c);
  }

  lemma UpperLetters(c: char)
    ensures c in UPPER <==> 'A' <= c <= 'Z'
  {
    Consecutive(UPPER, 'A', 'Z', c);
  }

  lemma Letters(c: char)
    ensures c in LOWER <==> 'a' <= c <= 'z'
    ensures c in UPPER <==> 'A' <= c <= 'Z'
    ensures c in DECIMAL <==> '0' <= c <= '9'
  {
    LowerLetters(c);
    UpperLetters(c);
    Consecutive(DECIMAL, '0', '9', c);
  }

  /** The characters of names and of qualifiers. */
  lemma NamesAreOf(c: char)
    ensures IsAlphanumeric(c) <==> c in LOWER || c in UPPER || c in DECIMAL
    ensures IsNameChar(c) <==> c in LOWER || c in UPPER || c in DECIMAL || c in {'+', '.', '-'}
    ensures IsQualifierChar(c) <==> c in LOWER || c in UPPER || c in DECIMAL || c in {'_', '-'}
  {
    Letters(c);
  }

  /** White space by code points, and what a version may not hold. */
  lemma SpacesAre(c: char)
    ensures IsSpace(c) <==>
            c as int in {9, 10, 11, 12, 13, 28, 29, 30, 31, 32, 133, 160, 5760, 8192, 8193, 8194, 8195, 8196, 8197,
                         8198, 8199, 8200, 8201, 8202, 8232, 8233, 8239, 8287, 12288}
    ensures IsVersionChar(c) <==> c !in {'(', ')'} && !IsSpace(c)
  {
  }

  ghost predicate All(p: char -> bool, s: string) {
    forall i :: 0 <= i < |s| ==> p(s[i])
  }

  /** The longest prefix whose characters all satisfy `p`, as the greedy repetitions take it. */
  function Span(p: char -> bool, s: string): (n: nat)
    ensures n <= |s|
    ensures All(p, s[..n])
    ensures n < |s| ==> !p(s[n])
  {
    if s == "" || !p(s[0]) then 0 else
    var n := 1 + Span(p, s[1..]);
    assert s[..n] == [s[0]] + s[1..][..n - 1];
    n
  }

  function TrimLeft(s: string): (t: string) {
    s[Span(IsSpace, s)..]
  }

  function TrimRight(s: string): string {
    if s != "" && IsSpace(s[|s| - 1]) then TrimRight(s[..|s| - 1]) else s
  }

  function Strip(s: string): string {
    TrimRight(TrimLeft(s))
  }

  lemma {:induction false} SpanIs(p: char -> bool, a: string, b: string)
    requires All(p, a)
    requires b == "" || !p(b[0])
    ensures Span(p, a + b) == |a|
    ensures (a + b)[|a|..] == b && (a + b)[..|a|] == a
  {
    if a == "" {
      assert a + b == b;
    } else {
      assert (a + b)[1..] == a[1..] + b;
      SpanIs(p, a[1..], b);
    }
  }

  // ---------------------------------------------------------------- the parser

  predicate ParseClose(s: string) {
    var close := TrimLeft(s);
    close != "" && close[0] == ')' && TrimLeft(close[1..]) == ""
  }

  /** `OPERATOR VERSION )` and nothing after it but blanks, for one operator. */
  function ParseWith(operator: string, s: string): Option<Constraint> {
    if !StartsWith(s, operator) then None else
    var rest := TrimLeft(s[|operator|..]);
    var n := Span(IsVersionChar, rest);
    if n > 0 && ParseClose(rest[n..])
    then Some(Constraint(operator, rest[..n]))
    else None
  }

  function ParseFirst(operators: seq<string>, s: string): Option<Constraint> {
    if operators == [] then None
    else if ParseWith(operators[0], s).Some? then ParseWith(operators[0], s)
    else ParseFirst(operators[1..], s)
  }

  /** What may follow the name and its qualifier: nothing, or one version constraint. */
  function ParseTail(s: string): Result<Option<Constraint>> {
    var tail := TrimLeft(s);
    if tail == "" then Ok(None)
    else if tail[0] != '(' then Err
    else
      var c := ParseFirst(OPERATORS, TrimLeft(tail[1..]));
      if c.Some? then Ok(c) else Err
  }

  /** The qualifier's text with its colon, as far as the pattern can take it. */
  function QualifierSpan(rest: string): (q: nat)
    ensures q <= |rest|
  {
    if rest != "" && rest[0] == ':' then 1 + Span(IsQualifierChar, rest[1..]) else 0
  }

  /** What may follow the name: a qualifier, then the tail. */
  function ParseAfterName(name: string, rest: string): Result<Relation> {
    var q := QualifierSpan(rest);
    var tail := ParseTail(rest[q..]);
    if q == 1 || tail.Err? then Err
    else Ok(Relation(name, if q == 0 then None else Some(rest[1..q]), tail.value))
  }

  /** The whole-string match of the relation pattern. */
  function ParseRelation(s: string): Result<Relation> {
    var text := TrimLeft(s);
    var n := Span(IsNameChar, text);
    if n == 0 || !IsAlphanumeric(text[0]) then Err else ParseAfterName(text[..n], text[n..])
  }

  // ---------------------------------------------------------------- the pattern, declaratively

  ghost predicate WellFormed(r: Relation) {
    && r.name != "" && All(IsNameChar, r.name) && IsAlphanumeric(r.name[0])
    && (r.qualifier.Some? ==> r.qualifier.value != "" && All(IsQualifierChar, r.qualifier.value))
    && (r.constraint.Some? ==>
         && r.constraint.value.operator in OPERATORS
         && r.constraint.value.version != "" && All(IsVersionChar, r.constraint.value.version))
  }

  function QualifierText(q: Option<string>): string {
    if q.Some? then ":" + q.value else ""
  }

  ghost predicate Blank(s: string) {
    All(IsSpace, s)
  }

  /** The blanks a match may put around the pieces. */
  datatype Blanks = Blanks(beforeName: string, beforeOpen: string, beforeOperator: string,
                           beforeVersion: string, beforeClose: string, atEnd: string)

  ghost predicate AllBlank(b: Blanks) {
    && Blank(b.beforeName) && Blank(b.beforeOpen) && Blank(b.beforeOperator)
    && Blank(b.beforeVersion) && Blank(b.beforeClose) && Blank(b.atEnd)
  }

  function CloseText(b: Blanks): string {
    b.beforeClose + (")" + b.atEnd)
  }

  function ConstraintBody(c: Constraint, b: Blanks): string {
    c.operator + (b.beforeVersion + (c.version + CloseText(b)))
  }

  function TailText(c: Option<Constraint>, b: Blanks): string {
    if c.Some? then b.beforeOpen + ("(" + (b.beforeOperator + ConstraintBody(c.value, b))) else b.atEnd
  }

  function Spelling(r: Relation, b: Blanks): string {
    b.beforeName + (r.name + (QualifierText(r.qualifier) + TailText(r.constraint, b)))
  }

  /** `s` is in the language of the relation pattern, read as `r`. */
  ghost predicate Matches(s: string, r: Relation) {
    WellFormed(r) && exists b :: AllBlank(b) && s == Spelling(r, b)
  }

  // ---------------------------------------------------------------- the parser decides the pattern

  lemma TrimLeftOf(blank: string, s: string)
    requires Blank(blank) && (s == "" || !IsSpace(s[0]))
    ensures TrimLeft(blank + s) == s
  {
    SpanIs(IsSpace, blank, s);
  }

  /** Whatever was trimmed is blank. */
  lemma TrimLeftSplits(s: string)
    ensures Blank(s[..Span(IsSpace, s)]) && s == s[..Span(IsSpace, s)] + TrimLeft(s)
    ensures TrimLeft(s) != "" ==> !IsSpace(TrimLeft(s)[0])
  {
  }

  lemma ParseCloseSound(s: string) returns (b: Blanks)
    requires ParseClose(s)
    ensures AllBlank(b) && s == CloseText(b) && b.beforeVersion == ""
  {
    var close := TrimLeft(s);
    TrimLeftSplits(s);
    TrimLeftSplits(close[1..]);
    assert close[1..] == close[1..][..Span(IsSpace, close[1..])];
    b := Blanks("", "", "", "", s[..Span(IsSpace, s)], close[1..]);
    assert close == ")" + close[1..];
  }

  lemma ParseCloseComplete(b: Blanks)
    requires AllBlank(b)
    ensures ParseClose(CloseText(b))
    ensures CloseText(b) != "" && !IsVersionChar(CloseText(b)[0])
  {
    var close := ")" + b.atEnd;
    TrimLeftOf(b.beforeClose, close);
    assert close[1..] == b.atEnd + "";
    TrimLeftOf(b.atEnd, "");
    if b.beforeClose != "" { assert CloseText(b)[0] == b.beforeClose[0]; }
  }

  lemma Cut(s: string, n: nat)
    requires n <= |s|
    ensures s == s[..n] + s[n..]
  {
  }

  lemma ParseWithSound(operator: string, s: string) returns (b: Blanks)
    requires operator in OPERATORS && ParseWith(operator, s).Some?
    ensures AllBlank(b) && s == ConstraintBody(ParseWith(operator, s).value, b)
    ensures var c := ParseWith(operator, s).value;
            c.operator == operator && c.version != "" && All(IsVersionChar, c.version)
  {
    var after := s[|operator|..];
    var rest := TrimLeft(after);
    var n := Span(IsVersionChar, rest);
    var inner := ParseCloseSound(rest[n..]);
    b := WithVersionBlank(inner, after);
    Cut(s, |operator|);
    Cut(rest, n);
  }

  lemma WithVersionBlank(inner: Blanks, after: string) returns (b: Blanks)
    requires AllBlank(inner)
    ensures AllBlank(b) && CloseText(b) == CloseText(inner) && after == b.beforeVersion + TrimLeft(after)
  {
    TrimLeftSplits(after);
    b := inner.(beforeVersion := after[..Span(IsSpace, after)]);
  }

  lemma ParseWithComplete(c: Constraint, b: Blanks)
    requires AllBlank(b) && c.operator in OPERATORS && c.version != "" && All(IsVersionChar, c.version)
    ensures ParseWith(c.operator, ConstraintBody(c, b)) == Some(c)
  {
    var close := CloseText(b);
    ParseCloseComplete(b);
    var rest := c.version + close;
    var s := ConstraintBody(c, b);
    assert s[..|c.operator|] == c.operator;
    assert s[|c.operator|..] == b.beforeVersion + rest;
    assert rest[0] == c.version[0];
    TrimLeftOf(b.beforeVersion, rest);
    SpanIs(IsVersionChar, c.version, close);
  }

  /** The operator the parser settles on: the first one that reads `s`, or none. */
  lemma {:induction false} FirstReader(operators: seq<string>, s: string) returns (i: nat)
    ensures i <= |operators| && forall j :: 0 <= j < i ==> ParseWith(operators[j], s).None?
    ensures i < |operators| ==> ParseWith(operators[i], s).Some?
    ensures ParseFirst(operators, s) == if i < |operators| then ParseWith(operators[i], s) else None
  {
    i := 0;
    if operators != [] && ParseWith(operators[0], s).None? {
      i := FirstReader(operators[1..], s);
      AfterFirst((operator: string) => ParseWith(operator, s).None?, operators, i);
      i := i + 1;
    }
  }

  lemma AfterFirst(fails: string -> bool, operators: seq<string>, i: nat)
    requires operators != [] && fails(operators[0]) && i <= |operators| - 1
    requires forall j :: 0 <= j < i ==> fails(operators[1..][j])
    ensures forall j :: 0 <= j < i + 1 ==> fails(operators[j])
  {
    forall j | 0 <= j < i + 1 ensures fails(operators[j]) {
      if j > 0 { assert operators[j] == operators[1..][j - 1]; }
    }
  }

  /** A constraint's place in the list of operators. */
  function Rank(operators: seq<string>, operator: string): (i: nat)
    ensures i <= |operators|
    ensures i < |operators| ==> operators[i] == operator
    ensures operator in operators ==> i < |operators|
    ensures forall j :: 0 <= j < i ==> operators[j] != operator
  {
    if operators == [] || operators[0] == operator then 0 else 1 + Rank(operators[1..], operator)
  }

  /** `tail` is what follows the name and the qualifier, read as `c`. */
  ghost predicate TailMatches(tail: string, c: Option<Constraint>) {
    && (c.Some? ==> c.value.operator in OPERATORS && c.value.version != "" && All(IsVersionChar, c.value.version))
    && exists b :: AllBlank(b) && tail == TailText(c, b)
  }

  lemma WithOpenBlanks(inner: Blanks, tail: string, t: string) returns (b: Blanks)
    requires AllBlank(inner) && t == TrimLeft(tail) && t != ""
    ensures AllBlank(b) && forall c :: ConstraintBody(c, b) == ConstraintBody(c, inner)
    ensures tail == b.beforeOpen + t
    ensures t[1..] == b.beforeOperator + TrimLeft(t[1..])
  {
    TrimLeftSplits(tail);
    TrimLeftSplits(t[1..]);
    b := inner.(beforeOpen := tail[..Span(IsSpace, tail)], beforeOperator := t[1..][..Span(IsSpace, t[1..])]);
  }

  lemma TailBodySound(tail: string, t: string, body: string)
    requires t == TrimLeft(tail) && t != "" && t[0] == '(' && body == TrimLeft(t[1..])
    requires ParseFirst(OPERATORS, body).Some?
    ensures TailMatches(tail, ParseFirst(OPERATORS, body))
  {
    var operator := ChosenOperator(OPERATORS, body);
    var inner := ParseWithSound(operator, body);
    var b := WithOpenBlanks(inner, tail, t);
    TailTextOf(tail, t, body, ParseFirst(OPERATORS, body).value, b);
  }

  lemma TailTextOf(tail: string, t: string, body: string, c: Constraint, b: Blanks)
    requires t != "" && t[0] == '(' && t[1..] == b.beforeOperator + body && tail == b.beforeOpen + t
    requires body == ConstraintBody(c, b)
    ensures tail == TailText(Some(c), b)
  {
    Cut(t, 1);
    assert t[..1] == "(";
  }

  lemma ChosenOperator(operators: seq<string>, s: string) returns (operator: string)
    requires ParseFirst(operators, s).Some?
    ensures operator in operators && ParseFirst(operators, s) == ParseWith(operator, s)
  {
    var i := FirstReader(operators, s);
    operator := operators[i];
  }

  lemma ParseTailSound(tail: string)
    requires ParseTail(tail).Ok?
    ensures TailMatches(tail, ParseTail(tail).value)
  {
    var t := TrimLeft(tail);
    if t == "" {
      TrimLeftSplits(tail);
      var b := Blanks("", "", "", "", "", tail);
      assert AllBlank(b) && tail == TailText(None, b);
    } else {
      TailBodySound(tail, t, TrimLeft(t[1..]));
    }
  }

  lemma ParseTailComplete(tail: string, c: Option<Constraint>)
    requires TailMatches(tail, c)
    ensures ParseTail(tail).Ok?
    ensures ParseTail(tail).value.None? <==> c.None?
    ensures c.Some? ==> Rank(OPERATORS, ParseTail(tail).value.value.operator) <= Rank(OPERATORS, c.value.operator)
    ensures c.Some? && ParseTail(tail).value.value.operator == c.value.operator ==> ParseTail(tail).value == c
  {
    var b :| AllBlank(b) && tail == TailText(c, b);
    if c.None? {
      TrimLeftOf(b.atEnd, "");
      assert tail == b.atEnd + "";
    } else {
      var body := ConstraintBody(c.value, b);
      OperatorStarts(c.value, b);
      ParseWithComplete(c.value, b);
      FirstOfSeveral(body, c.value);
      assert tail == b.beforeOpen + ("(" + (b.beforeOperator + body));
      TailReaches(tail, b, body);
    }
  }

  lemma OperatorStarts(c: Constraint, b: Blanks)
    requires c.operator in OPERATORS
    ensures ConstraintBody(c, b) != "" && !IsSpace(ConstraintBody(c, b)[0])
  {
    assert c.operator != "" && c.operator[0] in "<=>";
    assert ConstraintBody(c, b)[0] == c.operator[0];
  }

  lemma TailReaches(tail: string, b: Blanks, body: string)
    requires AllBlank(b) && body != "" && !IsSpace(body[0])
    requires tail == b.beforeOpen + ("(" + (b.beforeOperator + body))
    ensures var t := TrimLeft(tail); t != "" && t[0] == '(' && TrimLeft(t[1..]) == body
  {
    var inside := b.beforeOperator + body;
    TrimLeftOf(b.beforeOpen, "(" + inside);
    assert ("(" + inside)[1..] == inside;
    TrimLeftOf(b.beforeOperator, body);
  }

  lemma FirstOfSeveral(body: string, c: Constraint)
    requires c.operator in OPERATORS && ParseWith(c.operator, body) == Some(c)
    ensures ParseFirst(OPERATORS, body).Some?
    ensures Rank(OPERATORS, ParseFirst(OPERATORS, body).value.operator) <= Rank(OPERATORS, c.operator)
    ensures ParseFirst(OPERATORS, body).value.operator == c.operator ==> ParseFirst(OPERATORS, body) == Some(c)
  {
    var i := FirstReader(OPERATORS, body);
    var k := Rank(OPERATORS, c.operator);
    assert OPERATORS[k] == c.operator;
    assert Rank(OPERATORS, OPERATORS[i]) <= i;
  }

  lemma WithNameBlank(inner: Blanks, s: string) returns (b: Blanks)
    requires AllBlank(inner)
    ensures AllBlank(b) && s == b.beforeName + TrimLeft(s)
    ensures forall c :: TailText(c, b) == TailText(c, inner)
  {
    TrimLeftSplits(s);
    b := inner.(beforeName := s[..Span(IsSpace, s)]);
  }

  /** `rest`, which follows the name, is read as the qualifier and constraint of `r`. */
  ghost predicate RestMatches(rest: string, r: Relation) {
    && (r.qualifier.Some? ==> r.qualifier.value != "" && All(IsQualifierChar, r.qualifier.value))
    && exists tail :: TailMatches(tail, r.constraint) && rest == QualifierText(r.qualifier) + tail
  }

  lemma QualifierSpanText(rest: string)
    ensures var q := QualifierSpan(rest);
            && (q == 0 ==> rest == QualifierText(None) + rest[q..])
            && (q > 1 ==> rest == QualifierText(Some(rest[1..q])) + rest[q..] && All(IsQualifierChar, rest[1..q]))
  {
    var q := QualifierSpan(rest);
    Cut(rest, q);
    if q > 1 {
      assert rest[..q] == ":" + rest[1..q];
      assert rest[1..q] == rest[1..][..q - 1];
    }
  }

  lemma ParseAfterNameSound(name: string, rest: string)
    requires ParseAfterName(name, rest).Ok?
    ensures ParseAfterName(name, rest).value.name == name
    ensures RestMatches(rest, ParseAfterName(name, rest).value)
  {
    var q := QualifierSpan(rest);
    QualifierSpanText(rest);
    ParseTailSound(rest[q..]);
  }

  lemma ParseRelationSound(s: string)
    requires ParseRelation(s).Ok?
    ensures Matches(s, ParseRelation(s).value)
  {
    var r := ParseRelation(s).value;
    var text := TrimLeft(s);
    var n := Span(IsNameChar, text);
    ParseAfterNameSound(text[..n], text[n..]);
    var tail :| TailMatches(tail, r.constraint) && text[n..] == QualifierText(r.qualifier) + tail;
    var inner :| AllBlank(inner) && tail == TailText(r.constraint, inner);
    var b := WithNameBlank(inner, s);
    Cut(text, n);
    SpelledOut(s, r, b, text, tail);
  }

  lemma SpelledOut(s: string, r: Relation, b: Blanks, text: string, tail: string)
    requires s == b.beforeName + text && text == r.name + (QualifierText(r.qualifier) + tail)
    requires tail == TailText(r.constraint, b)
    ensures s == Spelling(r, b)
  {
  }

  /** A tail starts with a blank, an opening bracket or nothing. */
  lemma TailStart(tail: string, c: Option<Constraint>)
    requires TailMatches(tail, c)
    ensures tail == "" || (!IsNameChar(tail[0]) && !IsQualifierChar(tail[0]) && tail[0] != ':')
  {
    var b :| AllBlank(b) && tail == TailText(c, b);
    var lead := if c.Some? then b.beforeOpen else b.atEnd;
    if lead != "" {
      assert tail[0] == lead[0] && IsSpace(lead[0]);
    }
  }

  lemma QualifierSpanIs(r: Relation, rest: string, tail: string)
    requires r.qualifier.Some? ==> r.qualifier.value != "" && All(IsQualifierChar, r.qualifier.value)
    requires TailMatches(tail, r.constraint) && rest == QualifierText(r.qualifier) + tail
    ensures QualifierSpan(rest) == |QualifierText(r.qualifier)|
    ensures rest[QualifierSpan(rest)..] == tail
    ensures r.qualifier.Some? ==> rest[1..QualifierSpan(rest)] == r.qualifier.value
    ensures rest == "" || !IsNameChar(rest[0])
  {
    TailStart(tail, r.constraint);
    if r.qualifier.Some? {
      QualifierSpanOf(r.qualifier.value, tail);
    } else {
      assert rest == tail;
    }
  }

  lemma QualifierSpanOf(value: string, tail: string)
    requires value != "" && All(IsQualifierChar, value) && (tail == "" || !IsQualifierChar(tail[0]))
    ensures var rest := ":" + value + tail;
            QualifierSpan(rest) == 1 + |value| && rest[1 + |value|..] == tail && rest[1..1 + |value|] == value
  {
    var rest := ":" + value + tail;
    assert rest[1..] == value + tail;
    SpanIs(IsQualifierChar, value, tail);
  }

  /** `p` is the reading the parser prefers among the readings of the text `r` is one of. */
  predicate Prefers(p: Relation, r: Relation) {
    && p.name == r.name && p.qualifier == r.qualifier && (p.constraint.None? <==> r.constraint.None?)
    && RankOf(p) <= RankOf(r)
    && (RankOf(p) == RankOf(r) ==> p == r)
  }

  lemma ParseAfterNameComplete(rest: string, r: Relation)
    requires RestMatches(rest, r)
    ensures ParseAfterName(r.name, rest).Ok?
    ensures Prefers(ParseAfterName(r.name, rest).value, r)
  {
    var tail :| TailMatches(tail, r.constraint) && rest == QualifierText(r.qualifier) + tail;
    QualifierSpanIs(r, rest, tail);
    ParseTailComplete(tail, r.constraint);
    ParseTailSound(tail);
    RanksAgree(ParseAfterName(r.name, rest).value, r);
  }

  lemma ParseRelationComplete(s: string, r: Relation)
    requires Matches(s, r)
    ensures ParseRelation(s).Ok?
    ensures Prefers(ParseRelation(s).value, r)
  {
    var b :| AllBlank(b) && s == Spelling(r, b);
    var tail := TailText(r.constraint, b);
    var rest := QualifierText(r.qualifier) + tail;
    assert TailMatches(tail, r.constraint);
    assert RestMatches(rest, r);
    QualifierSpanIs(r, rest, tail);
    NameSpanIs(s, r.name, rest, b.beforeName);
    ParseAfterNameComplete(rest, r);
  }

  lemma NameSpanIs(s: string, name: string, rest: string, blank: string)
    requires Blank(blank) && s == blank + (name + rest)
    requires name != "" && All(IsNameChar, name) && IsAlphanumeric(name[0])
    requires rest == "" || !IsNameChar(rest[0])
    ensures var text := TrimLeft(s); var n := Span(IsNameChar, text);
            n == |name| && text[..n] == name && text[n..] == rest
  {
    var text := name + rest;
    assert text[0] == name[0];
    TrimLeftOf(blank, text);
    SpanIs(IsNameChar, name, rest);
  }

  /** The place of a relation's operator in the order the pattern tries them. */
  function RankOf(r: Relation): nat {
    if r.constraint.Some? then Rank(OPERATORS, r.constraint.value.operator) else 0
  }

  lemma SameRankSameOperator(operators: seq<string>, a: string, b: string)
    requires a in operators && b in operators && Rank(operators, a) == Rank(operators, b)
    ensures a == b
  {
    assert operators[Rank(operators, a)] == a;
  }

  lemma RanksAgree(p: Relation, r: Relation)
    requires p.constraint.Some? <==> r.constraint.Some?
    requires p.constraint.Some? ==> p.constraint.value.operator in OPERATORS && r.constraint.value.operator in OPERATORS
    ensures RankOf(p) == RankOf(r) && p.constraint.Some? ==> p.constraint.value.operator == r.constraint.value.operator
  {
    if p.constraint.Some? && RankOf(p) == RankOf(r) {
      SameRankSameOperator(OPERATORS, p.constraint.value.operator, r.constraint.value.operator);
    }
  }

  /** The parser decides the pattern: it fails exactly outside the pattern's language, and inside
      it returns the one reading whose operator is tried first. */
  lemma ParserDecidesPattern(s: string, r: Relation)
    ensures ParseRelation(s).Err? <==> !exists r' :: Matches(s, r')
    ensures ParseRelation(s) == Ok(r) <==>
            Matches(s, r) && forall r' :: Matches(s, r') ==> RankOf(r) <= RankOf(r')
  {
    if ParseRelation(s).Ok? {
      ParseRelationSound(s);
      var p := ParseRelation(s).value;
      forall r' | Matches(s, r') ensures RankOf(p) <= RankOf(r') {
        ParseRelationComplete(s, r');
      }
      if Matches(s, r) && forall r' :: Matches(s, r') ==> RankOf(r) <= RankOf(r') {
        ParseRelationComplete(s, r);
        assert RankOf(r) <= RankOf(p);
      }
    } else {
      forall r' ensures !Matches(s, r') {
        if Matches(s, r') { ParseRelationComplete(s, r'); }
      }
    }
  }

  // ---------------------------------------------------------------- groups

  /** Both parts in order, or a failure when either fails. */
  function Append<T>(a: Result<seq<T>>, b: Result<seq<T>>): Result<seq<T>> {
    if a.Err? || b.Err? then Err else Ok(a.value + b.value)
  }

  lemma AppendAssociates<T>(a: Result<seq<T>>, b: Result<seq<T>>, c: Result<seq<T>>)
    ensures Append(Append(a, b), c) == Append(a, Append(b, c))
  {
    if a.Ok? && b.Ok? && c.Ok? {
      assert a.value + b.value + c.value == a.value + (b.value + c.value);
    }
  }

  lemma AppendNothing<T>(a: Result<seq<T>>)
    ensures Append(Ok([]), a) == a && Append(a, Ok([])) == a
  {
    if a.Ok? { assert [] + a.value == a.value && a.value + [] == a.value; }
  }

  function ParseAlternative(part: string): Result<Group> {
    var parsed := ParseRelation(Strip(part));
    if parsed.Err? then Err else Ok([parsed.value])
  }

  function ParseAlternatives(parts: seq<string>): Result<Group> {
    if parts == [] then Ok([]) else Append(ParseAlternative(parts[0]), ParseAlternatives(parts[1..]))
  }

  function ParseItem(item: string): Result<seq<Group>> {
    if Strip(item) == "" then Ok([])
    else
      var group := ParseAlternatives(Split(Strip(item), '|'));
      if group.Err? then Err else Ok([group.value])
  }

  function ParseItems(items: seq<string>): Result<seq<Group>> {
    if items == [] then Ok([]) else Append(ParseItem(items[0]), ParseItems(items[1..]))
  }

  /** A dependency field: groups separated by commas, alternatives by bars, blank groups skipped. */
  function RelationGroups(value: string): Result<seq<Group>> {
    ParseItems(Split(value, ','))
  }

  method ParseGroup(parts: seq<string>) returns (r: Result<Group>)
    ensures r == ParseAlternatives(parts)
  {
    var alternatives: Group := [];
    assert parts[0..] == parts;
    AppendNothing(ParseAlternatives(parts));
    for j := 0 to |parts|
      invariant ParseAlternatives(parts) == Append(Ok(alternatives), ParseAlternatives(parts[j..]))
    {
      assert parts[j..][1..] == parts[j + 1..];
      AppendAssociates(Ok(alternatives), ParseAlternative(parts[j]), ParseAlternatives(parts[j + 1..]));
      var parsed := ParseAlternative(parts[j]);
      if parsed.Err? { return Err; }
      alternatives := alternatives + parsed.value;
    }
    AppendNothing(Ok(alternatives));
    return Ok(alternatives);
  }

  /** The loop over groups and alternatives, failing at the first unsupported alternative. */
  method ParseRelationGroups(value: string) returns (r: Result<seq<Group>>)
    ensures r == RelationGroups(value)
  {
    var items := Split(value, ',');
    var groups: seq<Group> := [];
    assert items[0..] == items;
    AppendNothing(ParseItems(items));
    for i := 0 to |items|
      invariant ParseItems(items) == Append(Ok(groups), ParseItems(items[i..]))
    {
      assert items[i..][1..] == items[i + 1..];
      AppendAssociates(Ok(groups), ParseItem(items[i]), ParseItems(items[i + 1..]));
      AppendNothing(Ok(groups));
      var item := Strip(items[i]);
      if item != "" {
        var alternatives := ParseGroup(Split(item, '|'));
        if alternatives.Err? { return Err; }
        groups := groups + [alternatives.value];
      }
    }
    AppendNothing(Ok(groups));
    return Ok(groups);
  }

  // ---------------------------------------------------------------- the printer and the round trip

  function Render(r: Relation): string {
    r.name + (QualifierText(r.qualifier) +
              (if r.constraint.Some?
               then " (" + r.constraint.value.operator + " " + r.constraint.value.version + ")" else ""))
  }

  function RenderGroup(g: Group): string
    requires g != []
  {
    if |g| == 1 then Render(g[0]) else Render(g[0]) + " | " + RenderGroup(g[1..])
  }

  const PRINTED_BLANKS := Blanks("", " ", "", " ", "", "")

  lemma PrintedTail(c: Constraint)
    ensures " (" + c.operator + " " + c.version + ")" == TailText(Some(c), PRINTED_BLANKS)
  {
    var b := PRINTED_BLANKS;
    assert CloseText(b) == ")";
    assert ConstraintBody(c, b) == c.operator + (" " + (c.version + ")"));
    assert "(" + ("" + ConstraintBody(c, b)) == "(" + ConstraintBody(c, b);
  }

  lemma PrintedMatches(r: Relation)
    requires WellFormed(r)
    ensures Matches(Render(r), r)
  {
    var b := PRINTED_BLANKS;
    if r.constraint.Some? { PrintedTail(r.constraint.value); }
    assert Render(r) == Spelling(r, b);
    assert AllBlank(b);
  }

  lemma OperatorShape(operator: string)
    requires operator in OPERATORS
    ensures ' ' !in operator && 1 <= |operator| <= 2
  {
  }

  lemma SpacelessPrefix(operator: string, rest: string, other: string)
    requires ' ' !in other && StartsWith(operator + (" " + rest), other)
    ensures other <= operator
  {
    var body := operator + (" " + rest);
    assert body[|operator|] == ' ';
    assert forall k :: 0 <= k < |other| ==> body[k] == other[k] != ' ';
    assert |other| <= |operator|;
    assert other == body[..|other|] == operator[..|other|];
  }

  lemma LongerIsTriedFirst(operator: string, other: string)
    requires operator in OPERATORS && other in OPERATORS && other <= operator
    ensures Rank(OPERATORS, operator) <= Rank(OPERATORS, other)
  {
    OperatorShape(operator);
    OperatorShape(other);
    if |other| == |operator| {
      assert other == operator;
    } else {
      assert other[0] == operator[0];
      RankValues();
    }
  }

  /** With a blank after it, an operator cannot be misread as another one that is tried earlier. */
  lemma PrintedOperatorIsFirst(operator: string, rest: string, other: string)
    requires operator in OPERATORS && other in OPERATORS
    requires StartsWith(operator + (" " + rest), other)
    ensures Rank(OPERATORS, operator) <= Rank(OPERATORS, other)
  {
    OperatorShape(other);
    SpacelessPrefix(operator, rest, other);
    LongerIsTriedFirst(operator, other);
  }

  lemma RankValues()
    ensures Rank(OPERATORS, "<<") == 0 && Rank(OPERATORS, "<=") == 1 && Rank(OPERATORS, "=") == 2
    ensures Rank(OPERATORS, ">=") == 3 && Rank(OPERATORS, ">>") == 4
    ensures Rank(OPERATORS, "<") == 5 && Rank(OPERATORS, ">") == 6
  {
    var n := Rank(OPERATORS, "<");
    assert OPERATORS[5] == "<" && OPERATORS[6] == ">";
  }

  /** A single printed relation parses to itself. */
  lemma PrintedRelationParses(r: Relation)
    requires WellFormed(r)
    ensures ParseRelation(Render(r)) == Ok(r)
  {
    PrintedMatches(r);
    ParseRelationComplete(Render(r), r);
    if r.constraint.Some? {
      PrintedConstraintIsFirst(r.constraint.value);
      PrintedTail(r.constraint.value);
      PrintedRest(r);
    }
  }

  /** The tail the parser reads in a printed relation is the printed constraint. */
  lemma PrintedRest(r: Relation)
    requires WellFormed(r) && r.constraint.Some? && ParseRelation(Render(r)).Ok?
    ensures Ok(ParseRelation(Render(r)).value.constraint) == ParseTail(TailText(r.constraint, PRINTED_BLANKS))
  {
    var tail := TailText(r.constraint, PRINTED_BLANKS);
    var rest := QualifierText(r.qualifier) + tail;
    PrintedTail(r.constraint.value);
    assert AllBlank(PRINTED_BLANKS);
    assert TailMatches(tail, r.constraint);
    QualifierSpanIs(r, rest, tail);
    NameSpanIs(Render(r), r.name, rest, "");
  }

  lemma PrintedConstraintIsFirst(c: Constraint)
    requires c.operator in OPERATORS && c.version != "" && All(IsVersionChar, c.version)
    ensures var p := ParseTail(TailText(Some(c), PRINTED_BLANKS));
            p.Ok? && p.value.Some? && Rank(OPERATORS, c.operator) <= Rank(OPERATORS, p.value.value.operator)
  {
    var b := PRINTED_BLANKS;
    var tail, body := TailText(Some(c), b), ConstraintBody(c, b);
    assert AllBlank(b);
    assert TailMatches(tail, Some(c));
    ParseTailComplete(tail, Some(c));
    OperatorStarts(c, b);
    TailReaches(tail, b, body);
    var chosen := ChosenOperator(OPERATORS, body);
    assert body == c.operator + (" " + (c.version + CloseText(b)));
    PrintedOperatorIsFirst(c.operator, c.version + CloseText(b), chosen);
  }

  lemma {:induction false} TrimRightOf(s: string, blank: string)
    requires Blank(blank) && (s == "" || !IsSpace(s[|s| - 1]))
    ensures TrimRight(s + blank) == s
    decreases |blank|
  {
    if blank == "" {
      assert s + blank == s;
    } else {
      var shorter := blank[..|blank| - 1];
      assert (s + blank)[..|s + blank| - 1] == s + shorter;
      assert (s + blank)[|s + blank| - 1] == blank[|blank| - 1];
      TrimRightOf(s, shorter);
    }
  }

  lemma StripOf(before: string, s: string, after: string)
    requires Blank(before) && Blank(after) && s != "" && !IsSpace(s[0]) && !IsSpace(s[|s| - 1])
    ensures Strip(before + s + after) == s
  {
    assert before + s + after == before + (s + after);
    TrimLeftOf(before, s + after);
    TrimRightOf(s, after);
  }

  lemma {:induction false} TrimRightKeepsOut(s: string, c: char)
    requires c !in s
    ensures c !in TrimRight(s)
  {
    if s != "" && IsSpace(s[|s| - 1]) { TrimRightKeepsOut(s[..|s| - 1], c); }
  }

  lemma StripKeepsOut(s: string, c: char)
    requires c !in s
    ensures c !in Strip(s)
  {
    TrimRightKeepsOut(TrimLeft(s), c);
  }

  lemma {:induction false} SplitKeepsOut(s: string, separator: char, c: char)
    requires c !in s
    ensures forall part :: part in Split(s, separator) ==> c !in part
    decreases |s|
  {
    var i := IndexOf(s, separator);
    if i < |s| { SplitKeepsOut(s[i + 1..], separator, c); }
  }

  /** A parsed relation brings in no separator its text did not have. */
  lemma ParsedKeepsOut(s: string, r: Relation, c: char)
    requires c !in s && ParseRelation(s) == Ok(r) && (c == ',' || c == '|')
    ensures c !in Render(r)
  {
    ParseRelationSound(s);
    var b :| AllBlank(b) && s == Spelling(r, b);
    var tail := TailText(r.constraint, b);
    KeptOutOfParts(b.beforeName, r.name + (QualifierText(r.qualifier) + tail), c);
    KeptOutOfParts(r.name, QualifierText(r.qualifier) + tail, c);
    KeptOutOfParts(QualifierText(r.qualifier), tail, c);
    if r.constraint.Some? {
      ConstraintKeepsOut(r.constraint.value, b, c);
      PrintedTail(r.constraint.value);
    }
  }

  lemma KeptOutOfParts(a: string, b: string, c: char)
    requires c !in a + b
    ensures c !in a && c !in b
  {
  }

  lemma ConstraintKeepsOut(k: Constraint, b: Blanks, c: char)
    requires c !in TailText(Some(k), b) && (c == ',' || c == '|')
    ensures c !in " (" + k.operator + " " + k.version + ")"
  {
    var body := ConstraintBody(k, b);
    KeptOutOfParts(b.beforeOpen, "(" + (b.beforeOperator + body), c);
    KeptOutOfParts("(", b.beforeOperator + body, c);
    KeptOutOfParts(b.beforeOperator, body, c);
    KeptOutOfParts(k.operator, b.beforeVersion + (k.version + CloseText(b)), c);
    KeptOutOfParts(b.beforeVersion, k.version + CloseText(b), c);
    KeptOutOfParts(k.version, CloseText(b), c);
  }

  /** What the parser guarantees about a group, and the printer relies on. */
  ghost predicate Printable(g: Group) {
    g != [] && forall r :: r in g ==> WellFormed(r) && ',' !in Render(r) && '|' !in Render(r)
  }

  lemma AlternativeIsPrintable(part: string)
    requires ParseAlternative(part).Ok? && ',' !in part && '|' !in part
    ensures Printable(ParseAlternative(part).value)
  {
    var s := Strip(part);
    StripKeepsOut(part, ',');
    StripKeepsOut(part, '|');
    var r := ParseRelation(s).value;
    ParseRelationSound(s);
    ParsedKeepsOut(s, r, ',');
    ParsedKeepsOut(s, r, '|');
  }

  lemma PrintableConcat(a: Group, b: Group)
    requires Printable(a) && (b == [] || Printable(b))
    ensures Printable(a + b)
  {
    forall r | r in a + b ensures WellFormed(r) && ',' !in Render(r) && '|' !in Render(r) {
      assert r in a || r in b;
    }
  }

  lemma {:induction false} AlternativesArePrintable(parts: seq<string>)
    requires parts != [] && ParseAlternatives(parts).Ok?
    requires forall part :: part in parts ==> ',' !in part && '|' !in part
    ensures Printable(ParseAlternatives(parts).value)
  {
    var first, rest := ParseAlternative(parts[0]).value, ParseAlternatives(parts[1..]).value;
    assert parts[0] in parts;
    AlternativeIsPrintable(parts[0]);
    if |parts| > 1 {
      assert forall part :: part in parts[1..] ==> part in parts;
      AlternativesArePrintable(parts[1..]);
    }
    PrintableConcat(first, rest);
  }

  lemma ItemIsPrintable(item: string)
    requires ',' !in item && ParseItem(item).Ok?
    ensures forall g :: g in ParseItem(item).value ==> Printable(g)
  {
    var s := Strip(item);
    if s != "" {
      StripKeepsOut(item, ',');
      SplitKeepsOut(s, '|', ',');
      PartsHaveNoSeparator(s, '|');
      AlternativesArePrintable(Split(s, '|'));
    }
  }

  lemma {:induction false} ItemsArePrintable(items: seq<string>)
    requires ParseItems(items).Ok? && forall item :: item in items ==> ',' !in item
    ensures forall g :: g in ParseItems(items).value ==> Printable(g)
  {
    if items != [] {
      assert items[0] in items;
      ItemIsPrintable(items[0]);
      assert forall item :: item in items[1..] ==> item in items;
      ItemsArePrintable(items[1..]);
    }
  }

  lemma RenderedEnds(r: Relation)
    requires WellFormed(r)
    ensures Render(r) != "" && !IsSpace(Render(r)[0]) && !IsSpace(Render(r)[|Render(r)| - 1])
  {
    var s := Render(r);
    assert s[0] == r.name[0];
    if r.constraint.Some? {
      assert s[|s| - 1] == ')';
    } else if r.qualifier.Some? {
      assert s[|s| - 1] == r.qualifier.value[|r.qualifier.value| - 1];
    } else {
      assert s[|s| - 1] == r.name[|r.name| - 1];
    }
  }

  lemma {:induction false} RenderedGroupEnds(g: Group)
    requires Printable(g)
    ensures RenderGroup(g) != "" && !IsSpace(RenderGroup(g)[0])
    ensures !IsSpace(RenderGroup(g)[|RenderGroup(g)| - 1])
    ensures ',' !in RenderGroup(g)
  {
    assert g[0] in g;
    RenderedEnds(g[0]);
    if |g| > 1 {
      assert forall r :: r in g[1..] ==> r in g;
      RenderedGroupEnds(g[1..]);
      var s, tail := RenderGroup(g), RenderGroup(g[1..]);
      assert s[0] == Render(g[0])[0];
      assert s[|s| - 1] == tail[|tail| - 1];
    }
  }

  lemma PaddedAlternative(before: string, r: Relation, after: string)
    requires Blank(before) && Blank(after) && WellFormed(r)
    ensures ParseAlternative(before + Render(r) + after) == Ok([r])
  {
    RenderedEnds(r);
    StripOf(before, Render(r), after);
    PrintedRelationParses(r);
  }

  lemma BlankKeepsOutBar(s: string)
    requires Blank(s)
    ensures '|' !in s
  {
  }

  lemma OneRenderedAlternative(before: string, r: Relation)
    requires Blank(before) && WellFormed(r) && '|' !in Render(r)
    ensures ParseAlternatives(Split(before + Render(r), '|')) == Ok([r])
  {
    var text := before + Render(r);
    BlankKeepsOutBar(before);
    SplitSingle(text, '|');
    assert text + "" == text;
    PaddedAlternative(before, r, "");
    assert [text][1..] == [];
    AppendNothing(ParseAlternative(text));
  }

  lemma PrintableParts(g: Group)
    requires Printable(g)
    ensures WellFormed(g[0]) && '|' !in Render(g[0])
    ensures |g| > 1 ==> Printable(g[1..])
  {
    assert g[0] in g;
    assert forall r :: r in g[1..] ==> r in g;
  }

  lemma StepParses(parts: seq<string>, first: string, rest: seq<string>, r: Relation, others: Group)
    requires parts == [first] + rest && ParseAlternative(first) == Ok([r]) && ParseAlternatives(rest) == Ok(others)
    ensures ParseAlternatives(parts) == Ok([r] + others)
  {
    FirstAlternative(first, rest);
  }

  lemma RenderedStep(before: string, g: Group, rest: seq<string>)
    requires |g| > 1 && WellFormed(g[0]) && '|' !in Render(g[0]) && Blank(before)
    requires rest == Split(" " + RenderGroup(g[1..]), '|') && ParseAlternatives(rest) == Ok(g[1..])
    ensures ParseAlternatives(Split(before + RenderGroup(g), '|')) == Ok([g[0]] + g[1..])
  {
    var first := before + Render(g[0]) + " ";
    RenderGroupSplits(before, g, first, " " + RenderGroup(g[1..]));
    PaddedAlternative(before, g[0], " ");
    StepParses(Split(before + RenderGroup(g), '|'), first, rest, g[0], g[1..]);
  }

  lemma HeadAndTail(g: Group)
    requires g != []
    ensures g == [g[0]] + g[1..]
  {
  }

  lemma RenderedSeveral(before: string, g: Group)
    requires |g| > 1 && WellFormed(g[0]) && '|' !in Render(g[0]) && Blank(before)
    requires ParseAlternatives(Split(" " + RenderGroup(g[1..]), '|')) == Ok(g[1..])
    ensures ParseAlternatives(Split(before + RenderGroup(g), '|')) == Ok(g)
  {
    HeadAndTail(g);
    RenderedStep(before, g, Split(" " + RenderGroup(g[1..]), '|'));
  }

  lemma {:induction false} RenderedAlternativesParse(before: string, g: Group)
    requires Printable(g) && Blank(before)
    ensures ParseAlternatives(Split(before + RenderGroup(g), '|')) == Ok(g)
    decreases |g|
  {
    PrintableParts(g);
    if |g| == 1 {
      OneRenderedAlternative(before, g[0]);
      assert g == [g[0]];
    } else {
      RenderedAlternativesParse(" ", g[1..]);
      RenderedSeveral(before, g);
    }
  }

  lemma FirstAlternative(first: string, rest: seq<string>)
    ensures ParseAlternatives([first] + rest) == Append(ParseAlternative(first), ParseAlternatives(rest))
  {
    assert ([first] + rest)[1..] == rest;
  }

  lemma OnlyItem(item: string)
    ensures ParseItems([item]) == ParseItem(item)
  {
    assert [item][1..] == [];
    AppendNothing(ParseItem(item));
  }

  lemma RenderGroupSplits(before: string, g: Group, first: string, rest: string)
    requires |g| > 1 && Blank(before) && '|' !in Render(g[0])
    requires first == before + Render(g[0]) + " " && rest == " " + RenderGroup(g[1..])
    ensures Split(before + RenderGroup(g), '|') == [first] + Split(rest, '|')
  {
    BarBetween(before, Render(g[0]), RenderGroup(g[1..]));
    BlankKeepsOutBar(before);
    assert '|' !in first;
    SplitSingle(first, '|');
    SplitConcat(first, rest, '|');
  }

  lemma BarBetween(before: string, a: string, b: string)
    ensures before + (a + " | " + b) == before + a + " " + ['|'] + (" " + b)
  {
    assert " | " == " " + ['|'] + " ";
  }

  lemma PrintedGroupParses(g: Group)
    requires Printable(g)
    ensures RelationGroups(RenderGroup(g)) == Ok([g])
  {
    var text := RenderGroup(g);
    RenderedGroupEnds(g);
    SplitSingle(text, ',');
    StripOf("", text, "");
    assert "" + text + "" == text && "" + text == text;
    RenderedAlternativesParse("", g);
    OnlyItem(text);
  }

  /** The main result: every group the parser produces parses back to itself, alone, from the text
      the closure check prints for it. */
  lemma GroupRoundTrip(value: string, g: Group)
    requires RelationGroups(value).Ok? && g in RelationGroups(value).value
    ensures g != [] && RelationGroups(RenderGroup(g)) == Ok([g])
  {
    PartsHaveNoSeparator(value, ',');
    ItemsArePrintable(Split(value, ','));
    PrintedGroupParses(g);
  }
  // ---------------------------------------------------------------- whole fields

  lemma {:induction false} ItemsConcat(a: seq<string>, b: seq<string>)
    ensures ParseItems(a + b) == Append(ParseItems(a), ParseItems(b))
  {
    if a == [] {
      assert a + b == b;
      AppendNothing(ParseItems(b));
    } else {
      assert (a + b)[1..] == a[1..] + b;
      ItemsConcat(a[1..], b);
      AppendAssociates(ParseItem(a[0]), ParseItems(a[1..]), ParseItems(b));
    }
  }

  /** A comma between two fields: the groups of the first, then those of the second, or neither. */
  lemma FieldsConcat(a: string, b: string)
    ensures RelationGroups(a + [','] + b) == Append(RelationGroups(a), RelationGroups(b))
  {
    SplitConcat(a, b, ',');
    ItemsConcat(Split(a, ','), Split(b, ','));
  }

  function RenderField(groups: seq<Group>): string
    requires forall i :: 0 <= i < |groups| ==> groups[i] != []
  {
    if groups == [] then "" else RenderGroup(groups[0]) + [','] + RenderField(groups[1..])
  }

  /** Printing all groups of a field and parsing them again gives them all, in order; the blank item
      after the last comma is skipped. */
  lemma {:induction false} FieldRoundTrip(groups: seq<Group>)
    requires forall i :: 0 <= i < |groups| ==> groups[i] != [] && Printable(groups[i])
    ensures RelationGroups(RenderField(groups)) == Ok(groups)
  {
    if groups == [] {
      SplitSingle("", ',');
      OnlyItem("");
    } else {
      FieldsConcat(RenderGroup(groups[0]), RenderField(groups[1..]));
      PrintedGroupParses(groups[0]);
      FieldRoundTrip(groups[1..]);
      assert groups == [groups[0]] + groups[1..];
    }
  }

  ghost predicate Readable(part: string) {
    exists r :: Matches(Strip(part), r)
  }

  lemma FirstAndRest(ok: string -> bool, parts: seq<string>)
    requires parts != []
    ensures (forall part :: part in parts ==> ok(part)) <==>
            ok(parts[0]) && forall part :: part in parts[1..] ==> ok(part)
  {
    assert parts == [parts[0]] + parts[1..];
  }

  lemma {:induction false} AlternativesAccepted(parts: seq<string>, ok: string -> bool)
    requires forall part :: ok(part) <==> ParseAlternative(part).Ok?
    ensures ParseAlternatives(parts).Ok? <==> forall part :: part in parts ==> ok(part)
  {
    if parts != [] {
      AlternativesAccepted(parts[1..], ok);
      FirstAndRest(ok, parts);
      assert ok(parts[0]) <==> ParseAlternative(parts[0]).Ok?;
    }
  }

  lemma OneAccepted(part: string)
    ensures ParseAlternative(part).Ok? <==> Readable(part)
  {
    var s := Strip(part);
    if ParseRelation(s).Ok? {
      ParseRelationSound(s);
    } else if Readable(part) {
      var r :| Matches(s, r);
      ParseRelationComplete(s, r);
    }
  }

  ghost predicate ItemReadable(item: string) {
    Strip(item) == "" || forall part :: part in Split(Strip(item), '|') ==> Readable(part)
  }

  lemma ItemAccepted(item: string)
    ensures ParseItem(item).Ok? <==> ItemReadable(item)
  {
    var parts := Split(Strip(item), '|');
    AlternativesAccepted(parts, (part: string) => ParseAlternative(part).Ok?);
    forall part | part in parts ensures ParseAlternative(part).Ok? <==> Readable(part) { OneAccepted(part); }
  }

  lemma {:induction false} ItemsAccepted(items: seq<string>)
    ensures ParseItems(items).Ok? <==> forall item :: item in items ==> ItemReadable(item)
  {
    if items != [] {
      ItemAccepted(items[0]);
      ItemsAccepted(items[1..]);
      assert forall item :: item in items <==> item == items[0] || item in items[1..];
    }
  }

  /** A field is accepted exactly when every alternative of every item that is not blank matches the
      pattern. */
  lemma FieldAccepted(value: string)
    ensures RelationGroups(value).Ok? <==> forall item :: item in Split(value, ',') ==> ItemReadable(item)
  {
    ItemsAccepted(Split(value, ','));
  }
}
