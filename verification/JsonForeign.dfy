/**
 * JsonGet on objects that other programs write: white space where JSON allows it, fields in any order, values as
 * string literals or bare.
 */
module JsonForeign {
  import opened Json
  import opened JsonRoundTrip

  // ---- White space ----

  predicate IsSpace(c: char) { c == ' ' || c == '\t' || c == '\r' || c == '\n' }

  predicate Space(w: string) { forall c | c in w :: IsSpace(c) }
  predicate Blank(w: string) { forall c | c in w :: c == ' ' || c == '\t' }

  /** A key with no white space in it either. */
  predicate Name(k: string) {
    KeyName(k) && forall c | c in k :: c != ' ' && c != '\t' && c != '\r'
  }

  lemma {:induction false} BlanksAreSkipped(w: string, x: string)
    requires Blank(w) && (x == "" || (x[0] != ' ' && x[0] != '\t'))
    ensures ReadValue(w + x) == ReadValue(x)
  {
    DropsBlanks(w, x);
    DropsBlanks("", x);
    assert "" + x == x;
  }

  lemma {:induction false} DropsBlanks(w: string, x: string)
    requires Blank(w) && (x == "" || (x[0] != ' ' && x[0] != '\t'))
    ensures DropBlanks(w + x) == x
  {
    if w == "" {
      assert w + x == x;
    } else {
      assert w[0] in w && (w + x)[1..] == w[1..] + x;
      forall c | c in w[1..] ensures c == ' ' || c == '\t' { assert c in w; }
      DropsBlanks(w[1..], x);
    }
  }

  // ---- One value ----

  /** A string literal is read behind any blanks. */
  lemma LiteralIsRead(w: string, v: string, rest: string)
    requires Blank(w)
    ensures ReadValue(w + (Quoted(Escape(v)) + rest)) == v
  {
    hide ReadValue, Escape;
    BlanksAreSkipped(w, Quoted(Escape(v)) + rest);
    ReadQuoted(v, rest);
  }

  /** A bare value: a word, a number, an object or an array. */
  predicate Bare(v: string) {
    v != "" && v[0] != ' ' && v[0] != '\t' && v[0] != '"' && SelfDelimited(v)
  }

  lemma BareIsRead(w: string, v: string, rest: string)
    requires Blank(w) && Bare(v) && rest != "" && rest[0] in ",}]"
    ensures ReadValue(w + (v + rest)) == v
  {
    hide ReadValue, BareDepth;
    BlanksAreSkipped(w, v + rest);
    BareEnds(v, rest);
  }

  lemma BareEnds(v: string, rest: string)
    requires Bare(v) && rest != "" && rest[0] in ",}]"
    ensures ReadValue(v + rest) == v
  {
    var s := v + rest;
    assert s[0] == v[0] && DropBlanks(s) == s;
    BareLengthOf(v, rest, 0);
    assert s[..|v|] == v;
  }

  // ---- A whole object ----

  datatype Value = Str(text: string) | Raw(text: string)

  /** A member: what is in front of its colon and behind it, its value, and what separates it from what follows. */
  datatype Member = Member(key: string, before: string, behind: string, value: Value, gap: string)

  function ValueOf(v: Value): string {
    match v
    case Str(text) => Quoted(Escape(text))
    case Raw(text) => text
  }

  function MembersText(ms: seq<Member>, tail: string): string {
    if ms == [] then tail else
    Quoted(ms[0].key) + (ms[0].before + (":" + (ms[0].behind + (ValueOf(ms[0].value)
      + (ms[0].gap + MembersText(ms[1..], tail))))))
  }

  /** White space, commas and braces, and nothing else. */
  predicate Gap(g: string) { forall c | c in g :: c == ',' || c == '{' || c == '}' || IsSpace(c) }

  predicate WellFormed(m: Member) {
    && Name(m.key) && Space(m.before) && Blank(m.behind) && m.gap != "" && Gap(m.gap) && m.gap[0] != '{'
    && (m.value.Raw? ==> Bare(m.value.text) && m.gap[0] in ",}")
  }

  /** A value in which the key cannot be mistaken: a literal that does not spell it, a bare value without a quote. */
  predicate Harmless(v: Value, k: string) {
    match v
    case Str(text) => text != k && !EndsWith(text, "\"" + k)
    case Raw(text) => '"' !in text
  }

  // ---- Where the key does not match ----

  lemma PlainHasNoHit(p: string, t: string, k: string)
    requires '"' !in p
    ensures Get(p + t, k) == Get(t, k)
  {
    hide Get;
    forall i | 0 <= i < |p| ensures !At(p + t, Quoted(k), i) {
      assert (p + t)[i] == p[i] && p[i] in p;
      if At(p + t, Quoted(k), i) { AtChars(p + t, k, i); }
    }
    GetSkip(p, t, k);
  }

  lemma NameHasNoHit(name: string, t: string, k: string)
    requires KeyName(k) && KeyName(name) && name != k && t != "" && t[0] !in k
    ensures Get(Quoted(name) + t, k) == Get(t, k)
  {
    hide Get;
    var s := Quoted(name) + t;
    assert forall j | 0 <= j < |name| :: s[1 + j] == name[j] && name[j] in name;
    assert s[1..1 + |name|] == name && s[1 + |name|] == '"' && s[2 + |name|] == t[0];
    assert forall j | 0 <= j < |k| :: k[j] in k;
    forall i | 0 <= i < |Quoted(name)| ensures !At(s, Quoted(k), i) {
      if At(s, Quoted(k), i) { AtChars(s, k, i); }
    }
    GetSkip(Quoted(name), t, k);
  }

  lemma ValueHasNoHit(v: Value, t: string, k: string)
    requires KeyName(k) && Harmless(v, k) && t != "" && t[0] !in k
    ensures Get(ValueOf(v) + t, k) == Get(t, k)
  {
    if v.Raw? {
      PlainHasNoHit(v.text, t, k);
    } else {
      hide Get, KeyName, At, Escape;
      forall i | 0 <= i < |ValueOf(v)| ensures !At(ValueOf(v) + t, Quoted(k), i) {
        if At(ValueOf(v) + t, Quoted(k), i) { HitInQuoted(v.text, k, t, i); }
      }
      GetSkip(ValueOf(v), t, k);
    }
  }

  lemma OutsideKey(c: char, k: string)
    requires Name(k) && (IsSpace(c) || c == ',' || c == ':' || c == '}')
    ensures c !in k
  {
  }

  /** What separates members has no quote. */
  lemma GapHasNoQuote(g: string)
    requires Gap(g)
    ensures '"' !in g
  {
  }

  /** The key at the front: what is behind the blanks of its colon is read. */
  lemma KeyIsFound(k: string, before: string, v: string)
    requires KeyName(k) && Space(before)
    ensures Get(Quoted(k) + (before + (":" + v)), k) == ReadValue(v)
  {
    var t := before + (":" + v);
    assert ':' !in before;
    assert At(Quoted(k) + t, Quoted(k), 0) by {
      AtFront("", Quoted(k), t);
      assert "" + (Quoted(k) + t) == Quoted(k) + t;
    }
    hide Get, ReadValue, At;
    QuotedLength(k);
    GetAfter(Quoted(k), t, k, 0);
    ReadAcross(before, v);
  }

  /** A member that is not the one looked for is passed. */
  lemma MemberIsPassed(m: Member, t: string, k: string)
    requires Name(k) && WellFormed(m) && m.key != k && Harmless(m.value, k)
    ensures Get(MembersText([m], t), k) == Get(t, k)
  {
    var v, gap := ValueOf(m.value), m.gap + t;
    var t1 := m.behind + (v + gap);
    var t2 := ":" + t1;
    var t3 := m.before + t2;
    assert MembersText([m], t) == Quoted(m.key) + t3 by { assert [m][1..] == []; }
    GapHasNoQuote(m.gap);
    assert '"' !in m.before && '"' !in m.behind && '"' !in ":";
    BeforeIsOutside(m, t2, k);
    GapIsOutside(m, t, k);
    hide Get, ValueOf, Quoted, WellFormed, Harmless;
    NameHasNoHit(m.key, t3, k);
    PlainHasNoHit(m.before, t2, k);
    PlainHasNoHit(":", t1, k);
    PlainHasNoHit(m.behind, v + gap, k);
    ValueHasNoHit(m.value, gap, k);
    PlainHasNoHit(m.gap, t, k);
  }

  lemma BeforeIsOutside(m: Member, t: string, k: string)
    requires WellFormed(m) && Name(k) && t != "" && t[0] == ':'
    ensures KeyName(m.key) && KeyName(k) && (m.before + t)[0] !in k
  {
    var s := m.before + t;
    if m.before != "" { assert s[0] == m.before[0] && m.before[0] in m.before; }
    OutsideKey(s[0], k);
  }

  lemma GapIsOutside(m: Member, t: string, k: string)
    requires WellFormed(m) && Name(k)
    ensures m.gap + t != "" && (m.gap + t)[0] !in k
  {
    assert m.gap[0] in m.gap;
    OutsideKey(m.gap[0], k);
  }

  /** The member looked for is read, whatever comes behind it. */
  lemma MemberIsRead(m: Member, t: string)
    requires WellFormed(m)
    ensures Get(MembersText([m], t), m.key) == m.value.text
  {
    var v, gap := ValueOf(m.value), m.gap + t;
    assert MembersText([m], t) == Quoted(m.key) + (m.before + (":" + (m.behind + (v + gap)))) by {
      assert [m][1..] == [];
    }
    hide Get, ReadValue, Escape;
    KeyIsFound(m.key, m.before, m.behind + (v + gap));
    if m.value.Str? {
      LiteralIsRead(m.behind, m.value.text, gap);
    } else {
      BareIsRead(m.behind, m.value.text, gap);
    }
  }

  lemma OneMember(ms: seq<Member>, tail: string)
    requires ms != []
    ensures MembersText(ms, tail) == MembersText([ms[0]], MembersText(ms[1..], tail))
  {
    assert [ms[0]][1..] == [];
  }

  /** No member in front has its key or spells it. */
  predicate Reachable(ms: seq<Member>, i: nat)
    requires i < |ms|
  {
    forall j | 0 <= j < i :: ms[j].key != ms[i].key && Harmless(ms[j].value, ms[i].key)
  }

  /**
   * Whoever wrote the object and however it is spaced, with white space, commas and braces between its members: each
   * is read, unless one in front of it has its key or spells it.
   */
  lemma {:induction false} ForeignReads(lead: string, ms: seq<Member>, tail: string, i: nat)
    requires Gap(lead) && i < |ms| && forall m | m in ms :: WellFormed(m)
    requires Reachable(ms, i)
    ensures Get(lead + MembersText(ms, tail), ms[i].key) == ms[i].value.text
    decreases i
  {
    hide Get, MembersText, Harmless;
    var more := MembersText(ms[1..], tail);
    GapHasNoQuote(lead);
    PlainHasNoHit(lead, MembersText(ms, tail), ms[i].key);
    OneMember(ms, tail);
    assert ms[0] in ms && ms[i] in ms;
    if i == 0 {
      MemberIsRead(ms[0], more);
    } else {
      MemberIsPassed(ms[0], more, ms[i].key);
      assert ms[1..][i - 1] == ms[i] && forall j | 0 <= j < i - 1 :: ms[1..][j] == ms[j + 1];
      ForeignReads("", ms[1..], tail, i - 1);
      assert "" + more == more;
    }
  }

  // ---- Line breaks behind the colon ----

  lemma {:induction false} EscapeIsLonger(v: string)
    ensures |v| <= |Escape(v)|
  {
    hide EscapeChar;
    if v != "" { EscapeIsLonger(v[1..]); }
  }

  /** Escaping adds quotes, backslashes and letters only. */
  lemma {:induction false} EscapeKeepsCount(v: string, c: char)
    requires c == ',' || c == '}' || c == ']'
    ensures multiset(Escape(v))[c] == multiset(v)[c]
  {
    if v != "" {
      var e := EscapeChar(v[0]);
      assert multiset(e)[c] == multiset([v[0]])[c];
      assert v == [v[0]] + v[1..] && multiset(e + Escape(v[1..])) == multiset(e) + multiset(Escape(v[1..]));
      EscapeKeepsCount(v[1..], c);
    }
  }

  lemma {:induction false} BareStops(s: string, depth: nat)
    ensures var n := BareLength(s, depth); n < |s| ==> s[n] == ',' || s[n] == '}' || s[n] == ']'
  {
    if s != "" {
      if s[0] == '{' || s[0] == '[' {
        BareStops(s[1..], depth + 1);
      } else if s[0] == '}' || s[0] == ']' {
        if depth > 0 { BareStops(s[1..], depth - 1); }
      } else {
        BareStops(s[1..], depth);
      }
    }
  }

  lemma BareIsTaken(x: string)
    requires x != "" && x[0] != ' ' && x[0] != '\t' && x[0] != '"'
    ensures ReadValue(x) == x[..BareLength(x, 0)]
  {
    hide BareLength;
  }

  lemma CountTells(y: string, n: nat, c: char)
    requires n < |y| && y[n] == c
    ensures multiset(y)[c] > multiset(y[..n])[c]
  {
    assert y == y[..n] + ([c] + y[n + 1..]);
    assert multiset(y) == multiset(y[..n]) + (multiset([c]) + multiset(y[n + 1..]));
  }

  /** Behind a line break the value is taken for a bare one, quotes and all. */
  lemma BreakMisleads(w: string, v: string, rest: string)
    requires Space(w) && w != "" && (w[0] == '\r' || w[0] == '\n')
    ensures ReadValue(w + (Quoted(Escape(v)) + rest)) != v
  {
    var q := Quoted(Escape(v));
    assert |q| == |Escape(v)| + 2;
    var y, x := w + q, w + (q + rest);
    assert x == y + rest && x[0] == w[0];
    hide BareLength, ReadValue, Escape, Quoted, Space;
    BareIsTaken(x);
    BareStops(x, 0);
    EscapeIsLonger(v);
    var n := BareLength(x, 0);
    if x[..n] == v {
      var c := y[n];
      assert x[n] == c && y[..n] == v;
      EscapeKeepsCount(v, c);
      QuotesDoNotCount(w, v, c);
      CountTells(y, n, c);
    }
  }

  lemma QuotesDoNotCount(w: string, v: string, c: char)
    requires Space(w) && (c == ',' || c == '}' || c == ']')
    ensures multiset(w + Quoted(Escape(v)))[c] == multiset(Escape(v))[c]
  {
    var e := Escape(v);
    assert c !in w && multiset(w)[c] == 0;
    assert Quoted(e) == ("\"" + e) + "\"";
    assert multiset(Quoted(e)) == multiset("\"") + multiset(e) + multiset("\"");
    assert multiset(w + Quoted(e)) == multiset(w) + multiset(Quoted(e));
  }

  lemma {:induction false} FirstBreak(w: string) returns (blanks: string, more: string)
    requires Space(w) && !Blank(w)
    ensures w == blanks + more && Blank(blanks) && more != "" && Space(more) && (more[0] == '\r' || more[0] == '\n')
  {
    assert IsSpace(w[0]);
    forall c | c in w[1..] ensures IsSpace(c) { assert c in w; }
    if w[0] == '\r' || w[0] == '\n' {
      blanks, more := "", w;
    } else {
      if Blank(w[1..]) {
        forall c | c in w ensures c == ' ' || c == '\t' { if c != w[0] { assert c in w[1..]; } }
      }
      blanks, more := FirstBreak(w[1..]);
      blanks := [w[0]] + blanks;
    }
  }

  /**
   * The exact condition: JSON allows any white space behind the colon, and a string is read right if and only if that
   * is blanks, with no line break among it.
   */
  lemma ReadsIffBlank(k: string, before: string, w: string, v: string, rest: string)
    requires Name(k) && Space(before) && Space(w)
    ensures Get("{" + (Quoted(k) + (before + (":" + (w + (Quoted(Escape(v)) + rest))))), k) == v <==> Blank(w)
  {
    var t := w + (Quoted(Escape(v)) + rest);
    hide Get, ReadValue, Escape, Quoted;
    PlainHasNoHit("{", Quoted(k) + (before + (":" + t)), k);
    KeyIsFound(k, before, t);
    if Blank(w) {
      LiteralIsRead(w, v, rest);
    } else {
      var blanks, more := FirstBreak(w);
      BreakMisleads(more, v, rest);
      assert t == blanks + (more + (Quoted(Escape(v)) + rest));
      BlanksAreSkipped(blanks, more + (Quoted(Escape(v)) + rest));
    }
  }

  // ---- Other escapes ----

  lemma {:induction false} UnquoteFront(a: string, x: string)
    ensures Unquote(Escape(a) + x) == a + Unquote(x)
  {
    if a == "" {
      assert Escape(a) + x == x;
    } else {
      UnquoteFront(a[1..], x);
      UnquoteChar(a[0], Escape(a[1..]) + x);
      hide Unquote, EscapeChar;
      Reassociate(EscapeChar(a[0]), Escape(a[1..]), x);
      assert a == [a[0]] + a[1..];
      Reassociate([a[0]], a[1..], Unquote(x));
    }
  }

  /** Of any escape but that of a line feed only the character behind the backslash is kept: \t is read as t. */
  lemma EscapesAreLost(a: string, c: char, b: string, rest: string)
    ensures ReadValue("\"" + (Escape(a) + ("\\" + ([c] + (Escape(b) + ("\"" + rest)))))) ==
      a + ([if c == 'n' then '\n' else c] + b)
  {
    var y := Escape(b) + ("\"" + rest);
    var x := "\\" + ([c] + y);
    var s := "\"" + (Escape(a) + x);
    assert s[0] == '"' && s[1..] == Escape(a) + x && DropBlanks(s) == s;
    hide Escape, Unquote;
    UnquoteFront(a, x);
    UnquoteBackslash(c, y);
    UnquoteEscape(b, rest);
  }

  // ---- Literal text ----

  /** Which values are embedded as they are, and that the others are escaped and quoted, as text of one field. */
  lemma TextOfOne(k: string, v: string)
    ensures v == "true" || v == "false" || v == "null" || (v != "" && (v[0] == '{' || v[0] == '[')) ==>
      Text([Field(k, v)]) == "{" + (("\"" + k + "\"" + ":" + v) + "}")
    ensures v != "true" && v != "false" && v != "null" && (v == "" || (v[0] != '{' && v[0] != '[')) ==>
      Text([Field(k, v)]) == "{" + (("\"" + k + "\"" + ":" + ("\"" + Escape(v) + "\"")) + "}")
  {
    hide Escape;
    FieldIsOne(Field(k, v));
  }

  lemma FieldIsOne(f: Field)
    ensures Text([f]) == "{" + (FieldText(f) + "}")
  {
    hide FieldText;
    assert [f][1..] == [] && Items([], false) == "}";
    assert Items([f], true) == "" + FieldText(f) + "}";
  }

  /** Two fields, with a comma between them. */
  lemma TextOfTwo(f: Field, g: Field)
    ensures Text([f, g]) == "{" + (FieldText(f) + ("," + (FieldText(g) + "}")))
  {
    hide FieldText;
    assert [f, g][1..] == [g] && [g][1..] == [];
    assert Items([], false) == "}";
    assert Items([g], false) == "," + FieldText(g) + "}";
    assert Items([f, g], true) == "" + FieldText(f) + Items([g], false);
    Reassociate(",", FieldText(g), "}");
  }

  /** Quote, backslash and line feed get a backslash, the last as a letter; everything else stays. */
  lemma {:induction false} EscapeAt(a: string, c: char, b: string)
    ensures Escape(a + ([c] + b)) == Escape(a) + ((
      if c == '"' then "\\\"" else if c == '\\' then "\\\\" else if c == '\n' then "\\n" else [c]) + Escape(b))
  {
    EscapeConcat(a, [c] + b);
    assert ([c] + b)[1..] == b;
  }
}
