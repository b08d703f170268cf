/**
 * JsonGet undoes JsonBuild. The reader finds its key by a raw text search, so everything turns on where the
 * first textual match of the quoted key can be.
 */
module JsonRoundTrip {
  import opened Json

  // ---- Unescaping undoes escaping ----

  lemma {:induction false} UnquoteEscape(v: string, z: string)
    ensures Unquote(Escape(v) + ("\"" + z)) == v
  {
    if v == "" {
      assert Escape(v) + ("\"" + z) == "\"" + z;
    } else {
      UnquoteEscape(v[1..], z);
      UnquoteChar(v[0], Escape(v[1..]) + ("\"" + z));
      hide Unquote, EscapeChar;
      Reassociate(EscapeChar(v[0]), Escape(v[1..]), "\"" + z);
      assert v == [v[0]] + v[1..];
    }
  }

  lemma UnquoteChar(c: char, t: string)
    ensures Unquote(EscapeChar(c) + t) == [c] + Unquote(t)
  {
    var e := EscapeChar(c);
    assert (e + t)[|e|..] == t;
  }

  // ---- Where a quoted key can match ----

  /** Alphanumeric names and more: none of the characters the JSON punctuation uses. */
  predicate KeyName(k: string) {
    k != "" && forall c | c in k :: c !in "\"\\\n:,}"
  }

  predicate EndsWith(s: string, t: string) {
    |t| <= |s| && s[|s| - |t|..] == t
  }

  predicate Contains(s: string, pat: string) {
    Find(s, pat, 0) != -1
  }

  /** A quoted value whose text, with the quotes around it, contains the quoted key. */
  predicate Decoy(v: string, k: string) {
    !Spliced(v) && (v == k || EndsWith(v, "\"" + k))
  }

  lemma AtChars(s: string, k: string, i: int)
    requires At(s, Quoted(k), i)
    ensures i + |k| + 2 <= |s| && s[i] == '"' && s[i + 1..i + 1 + |k|] == k && s[i + 1 + |k|] == '"'
    ensures forall j | 0 <= j < |k| :: s[i + 1 + j] == k[j]
  {
    var q := Quoted(k);
    assert forall j | 0 <= j < |q| :: s[i..][j] == q[j];
    assert s[i] == q[0] && s[i + 1 + |k|] == q[1 + |k|];
    forall j | 0 <= j < |k| ensures s[i + 1 + j] == k[j] {
      assert s[i..][1 + j] == q[1 + j];
    }
  }

  /** A match at the front, seen from behind its opening quote. */
  lemma AtOpen(t: string, k: string)
    ensures At("\"" + t, Quoted(k), 0) <==> k + "\"" <= t
  {
    var s, q, r := "\"" + t, Quoted(k), k + "\"";
    assert s[0..] == s && q == "\"" + r && q[1..] == r;
    if q <= s {
      assert r == s[..|q|][1..] == t[..|r|];
    }
    if r <= t {
      assert s[..|q|] == "\"" + t[..|r|];
    }
  }

  lemma AtSuffix(a: string, b: string, pat: string, i: int)
    requires |a| <= i
    ensures At(a + b, pat, i) <==> At(b, pat, i - |a|)
  {
    if i <= |a + b| {
      assert (a + b)[i..] == b[i - |a|..];
    }
  }

  /** Plain text in front of a closing quote can only be the escape of itself. */
  lemma {:induction false} PlainPrefix(v: string, k: string, z: string)
    requires forall c | c in k :: c !in "\"\\\n:,}"
    requires k + "\"" <= Escape(v) + ("\"" + z)
    ensures v == k
  {
    var s, p := Escape(v) + ("\"" + z), k + "\"";
    assert s[0] == p[0];
    assert k != "" ==> p[0] == k[0] && k[0] in k;
    if v != "" {
      var e, t := EscapeChar(v[0]), Escape(v[1..]) + ("\"" + z);
      assert s == e + t && s[0] == e[0];
      if k != "" {
        assert e == [v[0]] && t == s[1..];
        assert k[1..] + "\"" == p[1..];
        PlainPrefix(v[1..], k[1..], z);
      }
    }
  }

  lemma AtBehindBackslash(t: string, k: string)
    requires At("\\\"" + t, Quoted(k), 1)
    ensures k + "\"" <= t
  {
    assert "\\\"" + t == "\\" + ("\"" + t);
    AtSuffix("\\", "\"" + t, Quoted(k), 1);
    AtOpen(t, k);
  }

  /** The only quotes inside escaped text are the escaped ones. */
  lemma HitAtEscapedQuote(v: string, k: string, z: string, i: nat)
    requires KeyName(k) && v != "" && i < |EscapeChar(v[0])|
    requires At(EscapeChar(v[0]) + (Escape(v[1..]) + ("\"" + z)), Quoted(k), i)
    ensures v == "\"" + k && i == 1 && |Escape(v)| == 2 + |k|
  {
    var e, t := EscapeChar(v[0]), Escape(v[1..]) + ("\"" + z);
    assert (e + t)[i] == e[i] by { AtChars(e + t, k, i); }
    EscapedQuote(v[0], i);
    AtBehindBackslash(t, k);
    PlainPrefix(v[1..], k, z);
    PlainEscape(k);
    assert v == [v[0]] + v[1..];
  }

  lemma EscapedQuote(c: char, i: nat)
    requires i < |EscapeChar(c)| && EscapeChar(c)[i] == '"'
    ensures c == '"' && i == 1
  {
  }

  lemma {:induction false} HitInEscape(v: string, k: string, z: string, i: nat)
    requires KeyName(k) && i < |Escape(v)|
    requires At(Escape(v) + ("\"" + z), Quoted(k), i)
    ensures EndsWith(v, "\"" + k) && i + |k| + 2 == |Escape(v)| + 1
  {
    var e, t := EscapeChar(v[0]), Escape(v[1..]) + ("\"" + z);
    assert Escape(v) + ("\"" + z) == e + t;
    if i < |e| {
      HitAtEscapedQuote(v, k, z, i);
    } else {
      AtSuffix(e, t, Quoted(k), i);
      HitInEscape(v[1..], k, z, i - |e|);
      assert v[|v| - |k| - 1..] == v[1..][|v[1..]| - |k| - 1..];
    }
  }

  lemma {:induction false} PlainEscape(k: string)
    requires forall c | c in k :: c !in "\"\\\n:,}"
    ensures Escape(k) == k
  {
    if k != "" {
      assert k[0] in k;
      PlainEscape(k[1..]);
    }
  }

  lemma QuotedApart(e: string, after: string)
    ensures Quoted(e) + after == "\"" + (e + ("\"" + after)) == ("\"" + e) + ("\"" + after)
  {
  }

  lemma NoHitAtClose(after: string, k: string)
    requires KeyName(k) && after != "" && after[0] !in k
    ensures !At("\"" + after, Quoted(k), 0)
  {
    assert ("\"" + after)[1] == after[0] && k[0] in k;
    if At("\"" + after, Quoted(k), 0) {
      AtChars("\"" + after, k, 0);
      assert false;
    }
  }

  lemma HitInQuoted(v: string, k: string, after: string, i: nat)
    requires KeyName(k) && after != "" && after[0] !in k
    requires i < |Quoted(Escape(v))| && At(Quoted(Escape(v)) + after, Quoted(k), i)
    ensures (v == k || EndsWith(v, "\"" + k)) && i + |k| + 2 == |Quoted(Escape(v))|
  {
    var e, t := Escape(v), Escape(v) + ("\"" + after);
    QuotedApart(e, after);
    NoHitAtClose(after, k);
    hide Escape, At, Quoted, EndsWith;
    assert |Quoted(e)| == |e| + 2 by { QuotedLength(e); }
    if i == 0 {
      AtOpen(t, k);
      PlainPrefix(v, k, after);
      PlainEscape(k);
    } else if i <= |e| {
      AtSuffix("\"", t, Quoted(k), i);
      HitInEscape(v, k, after, i - 1);
    } else {
      AtSuffix("\"" + e, "\"" + after, Quoted(k), i);
    }
  }

  lemma QuotedLength(e: string)
    ensures |Quoted(e)| == |e| + 2
  {
  }

  lemma HitInSpliced(v: string, k: string, after: string, i: nat)
    requires KeyName(k) && after != "" && after[0] in ",}"
    requires i < |v| && At(v + after, Quoted(k), i)
    ensures At(v, Quoted(k), i) && Contains(v, Quoted(k))
  {
    assert (v + after)[|v|] == after[0];
    assert forall j | 0 <= j < |k| :: k[j] in k;
    AtChars(v + after, k, i);
    assert v[i..][..|k| + 2] == (v + after)[i..][..|k| + 2];
    FindIsFirst(v, Quoted(k), 0);
    assert At(v, Quoted(k), i);
  }

  lemma NoHitInName(name: string, k: string, rest: string, i: nat)
    requires KeyName(k) && KeyName(name) && name != k && i < |name| + 3
    ensures !At(Quoted(name) + (":" + rest), Quoted(k), i)
  {
    var s := Quoted(name) + (":" + rest);
    assert forall j | 0 <= j < |name| :: s[1 + j] == name[j] && name[j] in name;
    assert s[1..1 + |name|] == name && s[1 + |name|] == '"' && s[2 + |name|] == ':';
    assert forall j | 0 <= j < |k| :: k[j] in k;
    if At(s, Quoted(k), i) {
      AtChars(s, k, i);
      assert false;
    }
  }

  /** A match inside another field's text is a decoy value, or lies inside a spliced one. */
  lemma HitInField(f: Field, k: string, after: string, i: nat)
    requires KeyName(k) && KeyName(f.key) && f.key != k && after != "" && after[0] in ",}"
    requires i < |FieldText(f)| && At(FieldText(f) + after, Quoted(k), i)
    ensures if Spliced(f.value)
      then Contains(f.value, Quoted(k)) && i >= |f.key| + 3 && At(f.value, Quoted(k), i - |f.key| - 3)
      else Decoy(f.value, k) && i + |k| + 2 == |FieldText(f)|
  {
    var head, v := Quoted(f.key) + ":", ValueText(f.value);
    assert FieldText(f) == head + v && |head| == |f.key| + 3;
    assert v == if Spliced(f.value) then f.value else Quoted(Escape(f.value));
    hide FieldText, ValueText, Escape, Quoted, Spliced, Contains, EndsWith, KeyName, At;
    ThreeWays(Quoted(f.key), v, after);
    if i < |head| {
      NoHitInName(f.key, k, v + after, i);
    } else {
      AtSuffix(head, v + after, Quoted(k), i);
      if Spliced(f.value) {
        HitInSpliced(f.value, k, after, i - |head|);
      } else {
        NoPunctuation(k, after);
        HitInQuoted(f.value, k, after, i - |head|);
      }
    }
  }

  lemma NoPunctuation(k: string, after: string)
    requires KeyName(k) && after != "" && after[0] in ",}"
    ensures after[0] !in k
  {
  }

  lemma ThreeWays(name: string, v: string, after: string)
    ensures ((name + ":") + v) + after == name + (":" + (v + after)) == (name + ":") + (v + after)
  {
  }

  // ---- Moving the reader past text in which the key does not occur ----

  lemma {:induction false} FindShift(p: string, s: string, pat: string, from: nat)
    ensures Find(p + s, pat, |p| + from) == if Find(s, pat, from) == -1 then -1 else |p| + Find(s, pat, from)
    decreases |s| - from
  {
    if from <= |s| {
      assert (p + s)[|p| + from..] == s[from..];
      if !(pat <= s[from..]) { FindShift(p, s, pat, from + 1); }
    }
  }

  lemma {:induction false} FindLater(s: string, pat: string, from: nat, to: nat)
    requires from <= to <= |s| && forall i | from <= i < to :: !At(s, pat, i)
    ensures Find(s, pat, from) == Find(s, pat, to)
    decreases |s| - from
  {
    if from < to {
      assert !At(s, pat, from);
      FindLater(s, pat, from + 1, to);
    }
  }

  lemma ReadShift(p: string, s: string, from: nat)
    ensures ReadAfterColon(p + s, |p| + from) == ReadAfterColon(s, from)
  {
    hide Find, ReadValue;
    FindShift(p, s, ":", from);
    var colon := Find(s, ":", from);
    if colon != -1 {
      assert (p + s)[|p| + colon + 1..] == s[colon + 1..];
    }
  }

  lemma ReadAcross(between: string, v: string)
    requires ':' !in between
    ensures ReadAfterColon(between + (":" + v), 0) == ReadValue(v)
  {
    var t := between + (":" + v);
    forall j | 0 <= j < |between| ensures !At(t, ":", j) {
      assert t[j..][0] == between[j];
    }
    FindLater(t, ":", 0, |between|);
    assert t[|between|..] == ":" + v;
    assert t[|between| + 1..] == v;
  }

  lemma ReadNothing(s: string)
    requires ':' !in s
    ensures ReadAfterColon(s, 0) == ""
  {
    forall j | 0 <= j <= |s| ensures !At(s, ":", j) {
      if j < |s| { assert s[j..][0] == s[j]; }
    }
    FindIsFirst(s, ":", 0);
  }

  lemma FindSkip(p: string, s: string, pat: string)
    requires forall i | 0 <= i < |p| :: !At(p + s, pat, i)
    ensures Find(p + s, pat, 0) == if Find(s, pat, 0) == -1 then -1 else |p| + Find(s, pat, 0)
  {
    FindLater(p + s, pat, 0, |p|);
    FindShift(p, s, pat, 0);
  }

  lemma FindFirst(s: string, pat: string, i: nat)
    requires At(s, pat, i) && forall j | 0 <= j < i :: !At(s, pat, j)
    ensures Find(s, pat, 0) == i
  {
    FindLater(s, pat, 0, i);
  }

  lemma GetSkip(p: string, s: string, k: string)
    requires forall i | 0 <= i < |p| :: !At(p + s, Quoted(k), i)
    ensures Get(p + s, k) == Get(s, k)
  {
    hide ReadAfterColon, Find;
    FindSkip(p, s, Quoted(k));
    var at := Find(s, Quoted(k), 0);
    if at != -1 { ReadShift(p, s, at + |Quoted(k)|); }
  }

  /** The first match ends exactly where `p` does. */
  lemma GetAfter(p: string, t: string, k: string, i: nat)
    requires i + |k| + 2 == |p| && At(p + t, Quoted(k), i)
    requires forall j | 0 <= j < i :: !At(p + t, Quoted(k), j)
    ensures Get(p + t, k) == ReadAfterColon(t, 0)
  {
    hide Find, ReadAfterColon, At;
    QuotedLength(k);
    FindFirst(p + t, Quoted(k), i);
    ReadShift(p, t, 0);
  }

  // ---- Reading one value back ----

  /** The bracket depth after all of `s`, or -1 when a bare scan would stop inside it. Quotes do not count. */
  function BareDepth(s: string, depth: nat): (d: int)
    ensures d >= -1
  {
    if s == "" then depth
    else if s[0] == '{' || s[0] == '[' then BareDepth(s[1..], depth + 1)
    else if s[0] == '}' || s[0] == ']' then (if depth == 0 then -1 else BareDepth(s[1..], depth - 1))
    else if depth == 0 && s[0] == ',' then -1
    else BareDepth(s[1..], depth)
  }

  /** One bracket-balanced group, or a bare word: the scan ends exactly where the value does. */
  predicate SelfDelimited(v: string) {
    BareDepth(v, 0) == 0
  }

  lemma {:induction false} BareLengthOf(v: string, rest: string, depth: nat)
    ensures var d := BareDepth(v, depth);
      if d == -1 then BareLength(v + rest, depth) < |v| else BareLength(v + rest, depth) == |v| + BareLength(rest, d)
  {
    if v == "" {
      assert v + rest == rest;
    } else {
      assert (v + rest)[1..] == v[1..] + rest;
      if v[0] == '{' || v[0] == '[' {
        BareLengthOf(v[1..], rest, depth + 1);
      } else if v[0] == '}' || v[0] == ']' {
        if depth > 0 { BareLengthOf(v[1..], rest, depth - 1); }
      } else {
        BareLengthOf(v[1..], rest, depth);
      }
    }
  }

  lemma ReadQuoted(v: string, rest: string)
    ensures ReadValue(Quoted(Escape(v)) + rest) == v
  {
    var s := Quoted(Escape(v)) + rest;
    assert s[0] == '"' && s[1..] == Escape(v) + ("\"" + rest);
    UnquoteEscape(v, rest);
  }

  lemma ReadSpliced(v: string, rest: string)
    requires Spliced(v) && rest != "" && rest[0] in ",}"
    ensures ReadValue(v + rest) == v <==> SelfDelimited(v)
  {
    var s, d := v + rest, BareDepth(v, 0);
    assert s[0] == v[0];
    BareLengthOf(v, rest, 0);
    assert s[..|v|] == v;
  }

  /** A value reads back as itself exactly when it was quoted or delimits itself. */
  lemma ReadBack(v: string, rest: string)
    requires rest != "" && rest[0] in ",}"
    ensures ReadValue(ValueText(v) + rest) == v <==> !Spliced(v) || SelfDelimited(v)
  {
    if Spliced(v) { ReadSpliced(v, rest); } else { ReadQuoted(v, rest); }
  }

  // ---- The whole object ----

  /** Where the reader resumes behind the first match in a spliced value. */
  function Resumes(v: string, k: string): (e: nat)
    requires Contains(v, Quoted(k))
    ensures e <= |v|
  {
    Find(v, Quoted(k), 0) + |Quoted(k)|
  }

  /** The first colon in a spliced value behind the match, -1 when there is none. */
  function ColonIn(v: string, k: string): (c: int)
    requires Contains(v, Quoted(k))
    ensures -1 <= c < |v|
  {
    Find(v, ":", Resumes(v, k))
  }

  /** A value whose text matches the quoted key, and sends the reader on to the next field. */
  predicate Points(v: string, k: string) {
    Decoy(v, k) || (Spliced(v) && Contains(v, Quoted(k)) && ColonIn(v, k) == -1)
  }

  /** A spliced value that matches the quoted key and has a colon behind the match, so that it is read from inside. */
  predicate Traps(v: string, k: string) {
    Spliced(v) && Contains(v, Quoted(k)) && ColonIn(v, k) != -1
  }

  /** A value in which the key cannot be mistaken. */
  predicate Clear(v: string, k: string) {
    !Decoy(v, k) && (Spliced(v) ==> !Contains(v, Quoted(k)))
  }

  /** Where JsonGet starts to read a value: nowhere, at a field's value, or in the middle of a spliced one. */
  datatype Landing = Nowhere | AtField(n: nat) | Inside(n: nat, from: nat)

  /** The key itself, or what the first value in front of it that is not clear of it sends the reader to. */
  function Land(fields: seq<Field>, k: string): (l: Landing)
    ensures IsIn(l, fields)
  {
    if fields == [] then Nowhere
    else if fields[0].key == k then AtField(0)
    else if Points(fields[0].value, k) then (if 1 < |fields| then AtField(1) else Nowhere)
    else if Traps(fields[0].value, k) then Inside(0, ColonIn(fields[0].value, k) + 1)
    else OneOn(Land(fields[1..], k))
  }

  /** The same, counted from one field further in front. */
  function OneOn(l: Landing): Landing {
    match l
    case Nowhere => Nowhere
    case AtField(n) => AtField(n + 1)
    case Inside(n, from) => Inside(n + 1, from)
  }

  predicate IsIn(l: Landing, fields: seq<Field>) {
    match l
    case Nowhere => true
    case AtField(n) => n < |fields|
    case Inside(n, from) => n < |fields| && from <= |fields[n].value|
  }

  /** What is read there. */
  function ReadFrom(fields: seq<Field>, l: Landing): string
    requires IsIn(l, fields)
  {
    match l
    case Nowhere => ""
    case AtField(n) => ReadAt(fields, n)
    case Inside(n, from) => ReadValue(fields[n].value[from..] + Items(fields[n + 1..], false))
  }

  /** What is read at field `n`, in front of the text of the fields that follow. */
  function ReadAt(fields: seq<Field>, n: nat): string
    requires n < |fields|
  {
    ReadValue(ValueText(fields[n].value) + Items(fields[n + 1..], false))
  }

  lemma ItemsHead(fields: seq<Field>)
    ensures var s := Items(fields, false); s != "" && s[0] in ",}"
  {
  }

  lemma DecoyHit(f: Field, k: string, after: string)
    requires KeyName(k) && Decoy(f.value, k)
    ensures At(FieldText(f) + after, Quoted(k), |FieldText(f)| - |k| - 2)
  {
    var head, v := Quoted(f.key) + ":", f.value;
    if v == k {
      PlainEscape(k);
      assert FieldText(f) + after == head + (Quoted(k) + after);
      AtFront(head, Quoted(k), after);
    } else {
      var n := |v| - |k| - 1;
      assert v == v[..n] + ("\"" + k);
      EscapeConcat(v[..n], "\"" + k);
      QuoteThenPlain(k);
      TailHit(head, Escape(v[..n]), k, after);
    }
  }

  lemma TailHit(head: string, e: string, k: string, after: string)
    ensures At((head + Quoted(e + ("\\" + ("\"" + k)))) + after, Quoted(k), |head| + |e| + 2)
  {
    var pre := head + ("\"" + (e + "\\"));
    assert (head + Quoted(e + ("\\" + ("\"" + k)))) + after == pre + (Quoted(k) + after);
    AtFront(pre, Quoted(k), after);
  }

  lemma AtFront(a: string, pat: string, c: string)
    ensures At(a + (pat + c), pat, |a|)
  {
    assert (a + (pat + c))[|a|..] == pat + c;
  }

  lemma {:induction false} EscapeConcat(a: string, b: string)
    ensures Escape(a + b) == Escape(a) + Escape(b)
  {
    if a == "" {
      assert a + b == b;
    } else {
      assert (a + b)[1..] == a[1..] + b;
      EscapeConcat(a[1..], b);
    }
  }

  lemma QuoteThenPlain(k: string)
    requires KeyName(k)
    ensures Escape("\"" + k) == "\\" + ("\"" + k)
  {
    PlainEscape(k);
    assert ("\"" + k)[1..] == k;
  }

  /** The key found, or its first decoy: everything in front of this field is the single character `lead`. */
  lemma GetAtKey(lead: string, k: string, v: string)
    requires |lead| == 1 && lead[0] in "{,"
    ensures Get(lead + (Quoted(k) + (":" + v)), k) == ReadValue(v)
  {
    var p, t := lead + Quoted(k), ":" + v;
    assert lead + (Quoted(k) + t) == p + t;
    NoHitAtLead(lead, Quoted(k) + t, k);
    AtFront(lead, Quoted(k), t);
    GetAfter(p, t, k, 1);
    ReadAcross("", v);
    assert "" + t == t;
  }

  lemma NoHitAtLead(lead: string, s: string, k: string)
    requires |lead| == 1 && lead[0] in "{,"
    ensures !At(lead + s, Quoted(k), 0)
  {
    if At(lead + s, Quoted(k), 0) {
      AtChars(lead + s, k, 0);
      assert false;
    }
  }

  lemma GetAtDecoy(lead: string, f: Field, rest: string, k: string)
    requires |lead| == 1 && lead[0] in "{," && rest != "" && rest[0] in ",}"
    requires KeyName(k) && KeyName(f.key) && f.key != k && Decoy(f.value, k)
    ensures Get((lead + FieldText(f)) + rest, k) == ReadAfterColon(rest, 0)
  {
    hide FieldText, Get, ReadAfterColon, Decoy;
    var p, t := lead + FieldText(f), FieldText(f) + rest;
    assert p + rest == lead + t;
    NoHitAtLead(lead, t, k);
    DecoyHit(f, k, rest);
    var i := |p| - |k| - 2;
    AtSuffix(lead, t, Quoted(k), i);
    forall j | 0 <= j < i ensures !At(p + rest, Quoted(k), j) {
      if j > 0 && At(p + rest, Quoted(k), j) {
        AtSuffix(lead, t, Quoted(k), j);
        DecoyIsQuoted(f, k);
        HitInField(f, k, rest, j - 1);
      }
    }
    GetAfter(p, rest, k, i);
  }

  lemma DecoyIsQuoted(f: Field, k: string)
    requires Decoy(f.value, k)
    ensures !Spliced(f.value)
  {
  }

  lemma GetPastField(lead: string, f: Field, rest: string, k: string)
    requires |lead| == 1 && lead[0] in "{," && rest != "" && rest[0] in ",}"
    requires KeyName(k) && KeyName(f.key) && f.key != k && !Decoy(f.value, k)
    requires Spliced(f.value) ==> !Contains(f.value, Quoted(k))
    ensures Get((lead + FieldText(f)) + rest, k) == Get(rest, k)
  {
    hide FieldText, Get, Decoy, Contains;
    var p, t := lead + FieldText(f), FieldText(f) + rest;
    assert p + rest == lead + t;
    forall j | 0 <= j < |p| ensures !At(p + rest, Quoted(k), j) {
      NoHitAtLead(lead, t, k);
      if j > 0 && At(p + rest, Quoted(k), j) {
        AtSuffix(lead, t, Quoted(k), j);
        HitInField(f, k, rest, j - 1);
      }
    }
    GetSkip(p, rest, k);
  }

  /** A match inside a spliced value: the reader goes on right behind it. */
  lemma GetAtSpliced(lead: string, f: Field, rest: string, k: string)
    requires |lead| == 1 && lead[0] in "{," && rest != "" && rest[0] in ",}"
    requires KeyName(k) && KeyName(f.key) && f.key != k && Spliced(f.value) && Contains(f.value, Quoted(k))
    ensures Get((lead + FieldText(f)) + rest, k) == ReadAfterColon(f.value[Resumes(f.value, k)..] + rest, 0)
  {
    var v, head := f.value, Quoted(f.key) + ":";
    var e := Resumes(v, k);
    var p, t := (lead + head) + v[..e], v[e..] + rest;
    var at := MatchInSpliced(lead, f, rest, k);
    assert p + t == (lead + FieldText(f)) + rest by {
      assert FieldText(f) == head + v;
      hide *;
      AroundMatch(lead, head, v, rest, e);
    }
    hide *;
    GetAfter(p, t, k, at);
  }

  lemma MatchInSpliced(lead: string, f: Field, rest: string, k: string) returns (at: nat)
    requires |lead| == 1 && lead[0] in "{," && rest != "" && rest[0] in ",}"
    requires KeyName(k) && KeyName(f.key) && f.key != k && Spliced(f.value) && Contains(f.value, Quoted(k))
    ensures at + |k| + 2 == |(lead + (Quoted(f.key) + ":")) + f.value[..Resumes(f.value, k)]|
    ensures At((lead + FieldText(f)) + rest, Quoted(k), at)
    ensures forall j | 0 <= j < at :: !At((lead + FieldText(f)) + rest, Quoted(k), j)
  {
    var v, head := f.value, Quoted(f.key) + ":";
    assert FieldText(f) == head + v && |head| == |f.key| + 3;
    var first := Find(v, Quoted(k), 0);
    assert Resumes(v, k) == first + |k| + 2;
    FindIsFirst(v, Quoted(k), 0);
    at := |lead + head| + first;
    hide FieldText, Contains, Find, Spliced, Quoted, Resumes, KeyName, At;
    AroundMatch(lead, head, v, rest, |v|);
    AtInside(lead + head, v, rest, Quoted(k), first);
    forall j | 0 <= j < at ensures !At((lead + FieldText(f)) + rest, Quoted(k), j) {
      if At((lead + FieldText(f)) + rest, Quoted(k), j) { HitBehindLead(lead, f, rest, k, j); }
    }
  }

  /** A match behind the lead of a spliced field lies in its value. */
  lemma HitBehindLead(lead: string, f: Field, rest: string, k: string, j: nat)
    requires |lead| == 1 && lead[0] in "{," && rest != "" && rest[0] in ",}"
    requires KeyName(k) && KeyName(f.key) && f.key != k && Spliced(f.value) && j <= |FieldText(f)|
    requires At((lead + FieldText(f)) + rest, Quoted(k), j)
    ensures |f.key| + 4 <= j && At(f.value, Quoted(k), j - |f.key| - 4)
  {
    hide FieldText, Contains, Spliced, KeyName, At, Decoy;
    var t := FieldText(f) + rest;
    assert (lead + FieldText(f)) + rest == lead + t;
    NoHitAtLead(lead, t, k);
    AtSuffix(lead, t, Quoted(k), j);
    HitInField(f, k, rest, j - 1);
  }

  lemma AroundMatch(lead: string, head: string, v: string, rest: string, e: nat)
    requires e <= |v|
    ensures var p, t := (lead + head) + v[..e], v[e..] + rest;
      p + t == (lead + (head + v)) + rest == lead + ((head + v) + rest) == (lead + head) + (v + rest)
  {
    assert v == v[..e] + v[e..];
  }

  lemma AtInside(pre: string, v: string, rest: string, pat: string, at: int)
    requires At(v, pat, at)
    ensures At(pre + (v + rest), pat, |pre| + at)
  {
    assert (pre + (v + rest))[|pre| + at..] == v[at..] + rest;
  }

  /** Behind a match: the value after the next colon, in what is left of the spliced value or in the next field. */
  lemma ReadTail(tail: string, fields: seq<Field>)
    requires forall f | f in fields :: KeyName(f.key)
    ensures var c := Find(tail, ":", 0);
      ReadAfterColon(tail + Items(fields, false), 0) ==
        if c != -1 then ReadValue(tail[c + 1..] + Items(fields, false))
        else if fields == [] then "" else ReadAt(fields, 0)
  {
    hide ReadValue, ReadAt, KeyName, Items;
    var rest, c := Items(fields, false), Find(tail, ":", 0);
    FindIsFirst(tail, ":", 0);
    if c == -1 {
      forall j | 0 <= j < |tail| ensures !At(tail + rest, ":", j) { ColonAt(tail, rest, j); }
      FindLater(tail + rest, ":", 0, |tail|);
      ReadShift(tail, rest, 0);
      ReadNextField(fields);
    } else {
      forall j | 0 <= j <= c ensures At(tail + rest, ":", j) <==> At(tail, ":", j) { ColonAt(tail, rest, j); }
      FindFirst(tail + rest, ":", c);
      assert (tail + rest)[c + 1..] == tail[c + 1..] + rest;
    }
  }

  lemma ColonAt(tail: string, rest: string, j: nat)
    requires j < |tail|
    ensures At(tail + rest, ":", j) <==> At(tail, ":", j)
  {
    assert (tail + rest)[j] == tail[j];
    assert tail[j..][0] == tail[j] && (tail + rest)[j..][0] == tail[j];
  }

  /** The colon looked for in what is left is the one looked for in the whole. */
  lemma ColonBehind(v: string, k: string)
    requires Contains(v, Quoted(k))
    ensures var (e, c) := (Resumes(v, k), Find(v[Resumes(v, k)..], ":", 0));
      ColonIn(v, k) == (if c == -1 then -1 else e + c) && (c != -1 ==> v[e..][c + 1..] == v[e + c + 1..])
  {
    hide Contains, Resumes;
    var e := Resumes(v, k);
    assert v == v[..e] + v[e..];
    FindShift(v[..e], v[e..], ":", 0);
  }

  lemma ReadNextField(fields: seq<Field>)
    requires forall f | f in fields :: KeyName(f.key)
    ensures ReadAfterColon(Items(fields, false), 0) == if fields == [] then "" else ReadAt(fields, 0)
  {
    hide ReadAfterColon, ReadValue, ValueText, KeyName;
    if fields == [] {
      ReadNothing("}");
    } else {
      var f, rest := fields[0], Items(fields[1..], false);
      var between, v := "," + Quoted(f.key), ValueText(f.value) + rest;
      KeyHasNoColon(f);
      SplitAtColon(Quoted(f.key), ValueText(f.value), rest);
      hide Quoted;
      assert Items(fields, false) == between + (":" + v);
      ReadAcross(between, v);
    }
  }

  lemma SplitAtColon(name: string, v: string, rest: string)
    ensures ("," + ((name + ":") + v)) + rest == ("," + name) + (":" + (v + rest))
  {
  }

  lemma KeyHasNoColon(f: Field)
    requires KeyName(f.key)
    ensures ':' !in "," + Quoted(f.key)
  {
  }

  lemma {:induction false} GetChain(lead: string, fields: seq<Field>, k: string)
    requires |lead| == 1 && lead[0] in "{," && fields != []
    requires KeyName(k) && forall f | f in fields :: KeyName(f.key)
    ensures Get((lead + FieldText(fields[0])) + Items(fields[1..], false), k) == ReadFrom(fields, Land(fields, k))
    decreases |fields|
  {
    hide Get, ReadAfterColon, ReadValue, Decoy, Contains, ValueText, Spliced, ColonIn, Resumes, FieldText;
    var f, tail := fields[0], fields[1..];
    var rest := Items(tail, false);
    ItemsHead(tail);
    if f.key == k {
      GetAtFirst(lead, fields, k);
    } else if Decoy(f.value, k) {
      GetAtDecoy(lead, f, rest, k);
      ReadNextField(tail);
      assert tail != [] ==> tail[1..] == fields[2..];
    } else if Spliced(f.value) && Contains(f.value, Quoted(k)) {
      GetAtSpliced(lead, f, rest, k);
      ColonBehind(f.value, k);
      ReadTail(f.value[Resumes(f.value, k)..], tail);
      assert tail != [] ==> tail[1..] == fields[2..];
    } else {
      GetPastField(lead, f, rest, k);
      if tail == [] {
        GetFromBrace(k);
      } else {
        GetChain(",", tail, k);
        assert rest == ("," + FieldText(tail[0])) + Items(tail[1..], false);
        ReadFromTail(fields, Land(tail, k));
      }
    }
  }

  lemma GetAtFirst(lead: string, fields: seq<Field>, k: string)
    requires |lead| == 1 && lead[0] in "{," && fields != [] && fields[0].key == k
    ensures Get((lead + FieldText(fields[0])) + Items(fields[1..], false), k) == ReadAt(fields, 0)
  {
    hide Get, ReadValue, ValueText, Items;
    var f, rest := fields[0], Items(fields[1..], false);
    var v := ValueText(f.value) + rest;
    assert (lead + FieldText(f)) + rest == lead + (Quoted(k) + (":" + v));
    GetAtKey(lead, k, v);
  }

  lemma ReadFromTail(fields: seq<Field>, l: Landing)
    requires fields != [] && IsIn(l, fields[1..])
    ensures IsIn(OneOn(l), fields) && ReadFrom(fields[1..], l) == ReadFrom(fields, OneOn(l))
  {
    hide ReadValue, Items, ValueText;
    if !l.Nowhere? { assert fields[1..][l.n + 1..] == fields[l.n + 2..]; }
  }

  lemma GetFromNothing(k: string)
    ensures Get(Text([]), k) == ""
  {
  }

  lemma GetFromBrace(k: string)
    ensures Get("}", k) == ""
  {
  }

  /** What JsonGet returns from any object JsonBuild wrote, right or wrong. */
  lemma GetOfText(fields: seq<Field>, k: string)
    requires KeyName(k) && forall f | f in fields :: KeyName(f.key)
    ensures Get(Text(fields), k) == ReadFrom(fields, Land(fields, k))
  {
    hide Get, FieldText, ReadValue, KeyName, ReadFrom;
    if fields == [] {
      GetFromNothing(k);
      NothingToRead(k);
    } else {
      GetChain("{", fields, k);
      TextHead(fields);
    }
  }

  lemma NothingToRead(k: string)
    ensures ReadFrom([], Land([], k)) == ""
  {
  }

  lemma TextHead(fields: seq<Field>)
    requires fields != []
    ensures Text(fields) == ("{" + FieldText(fields[0])) + Items(fields[1..], false)
  {
    hide FieldText;
    var f, rest := FieldText(fields[0]), Items(fields[1..], false);
    assert Text(fields) == "{" + (("" + f) + rest);
    hide *;
    LeadItem("{", f, rest);
  }

  lemma LeadItem(lead: string, f: string, rest: string)
    ensures lead + (("" + f) + rest) == (lead + f) + rest
  {
  }

  // ---- The round trip ----

  predicate WellNamed(fields: seq<Field>) {
    (forall f | f in fields :: KeyName(f.key)) &&
    (forall i, j | 0 <= i < j < |fields| :: fields[i].key != fields[j].key)
  }

  /** Every value in front of field `i` is clear of its key, but one right in front that points to it does no harm. */
  predicate Unambiguous(fields: seq<Field>, i: nat)
    requires i < |fields|
  {
    forall j | 0 <= j < i ::
      Clear(fields[j].value, fields[i].key) || (j == i - 1 && Points(fields[j].value, fields[i].key))
  }

  /** That is when the reader lands on the field, and says so by the fields in front of it alone. */
  lemma {:induction false} LandsOnKey(fields: seq<Field>, i: nat)
    requires WellNamed(fields) && i < |fields|
    ensures Land(fields, fields[i].key) == AtField(i) <==> Unambiguous(fields, i)
    ensures !Unambiguous(fields, i) ==> !Land(fields, fields[i].key).Nowhere? && Land(fields, fields[i].key).n < i
  {
    hide Decoy, Contains, ColonIn, Spliced, KeyName;
    if i > 0 {
      var tail, k := fields[1..], fields[i].key;
      assert fields[0].key != k && tail[i - 1] == fields[i];
      LandsOnKey(tail, i - 1);
      if Clear(fields[0].value, k) {
        assert Unambiguous(fields, i) <==> Unambiguous(tail, i - 1) by { FrontIsClear(fields, i); }
      } else {
        assert !Clear(fields[0].value, fields[i].key);
      }
    }
  }

  lemma FrontIsClear(fields: seq<Field>, i: nat)
    requires 0 < i < |fields| && Clear(fields[0].value, fields[i].key)
    ensures Unambiguous(fields, i) <==> Unambiguous(fields[1..], i - 1)
  {
    hide Clear, Points;
    var tail, k := fields[1..], fields[i].key;
    if Unambiguous(fields, i) {
      forall j | 0 <= j < i - 1 ensures Clear(tail[j].value, k) || (j == i - 2 && Points(tail[j].value, k)) {
        assert tail[j] == fields[j + 1];
      }
    }
    if Unambiguous(tail, i - 1) {
      forall j | 0 <= j < i ensures Clear(fields[j].value, k) || (j == i - 1 && Points(fields[j].value, k)) {
        if j > 0 { assert fields[j] == tail[j - 1]; }
      }
    }
  }

  /** A value the reader can read: quoted, or delimiting itself. */
  predicate Readable(v: string) {
    !Spliced(v) || SelfDelimited(v)
  }

  /** Where the field is unambiguous, JsonGet returns the value JsonBuild was given exactly when it is readable. */
  lemma GetUndoesBuild(fields: seq<Field>, i: nat)
    requires WellNamed(fields) && i < |fields| && Unambiguous(fields, i)
    ensures Get(Text(fields), fields[i].key) == fields[i].value <==> Readable(fields[i].value)
  {
    hide Get, Text, ReadValue, ValueText, SelfDelimited, Unambiguous, Spliced, Land;
    LandsOnKey(fields, i);
    GetOfText(fields, fields[i].key);
    ItemsHead(fields[i + 1..]);
    ReadBack(fields[i].value, Items(fields[i + 1..], false));
  }

  // ---- Exactly when every value is read back ----

  function With(fields: seq<Field>, i: nat, v: string): seq<Field>
    requires i < |fields|
  {
    fields[i := Field(fields[i].key, v)]
  }

  /** The landing depends on the keys and on the values in front of the field, and on no other. */
  lemma {:induction false} LandsInFront(fields: seq<Field>, i: nat, v: string)
    requires i < |fields|
    ensures Land(With(fields, i, v), fields[i].key) == Land(fields, fields[i].key)
  {
    hide Points, Traps;
    if i > 0 {
      assert With(fields, i, v)[1..] == With(fields[1..], i - 1, v);
      LandsInFront(fields[1..], i - 1, v);
    }
  }

  lemma {:induction false} BlanksInFront(w: string, x: string)
    requires x != "" && x[0] != ' ' && x[0] != '\t'
    ensures DropBlanks(w + x) == DropBlanks(w) + x
  {
    if w == "" {
      assert w + x == x;
    } else {
      assert (w + x)[1..] == w[1..] + x;
      BlanksInFront(w[1..], x);
    }
  }

  lemma UnquotePlain(c: char, t: string)
    ensures Unquote([c] + t) == if c == '"' then "" else if c == '\\' then Unquote([c] + t) else [c] + Unquote(t)
  {
    assert ([c] + t)[1..] == t;
  }

  lemma UnquoteBackslash(c: char, t: string)
    ensures Unquote("\\" + ([c] + t)) == [if c == 'n' then '\n' else c] + Unquote(t)
  {
    assert ("\\" + ([c] + t))[2..] == t;
  }

  lemma Split(w: string, n: nat, x: string)
    requires n <= |w|
    ensures w + x == w[..n] + (w[n..] + x)
  {
  }

  /** A literal that is still open ends with the quote of the next key at the latest. */
  lemma {:induction false} LiteralEnds(w: string, t: string, u: string)
    ensures Unquote(w + ("," + ("\"" + t))) == Unquote(w + ("," + ("\"" + u)))
    decreases |w|
  {
    hide Unquote;
    var x, y := "," + ("\"" + t), "," + ("\"" + u);
    if w == "" {
      assert w + x == x && w + y == y;
      CommaAndQuote(t);
      CommaAndQuote(u);
    } else if w[0] != '\\' {
      assert w[..1] == [w[0]];
      Split(w, 1, x);
      Split(w, 1, y);
      UnquotePlain(w[0], w[1..] + x);
      UnquotePlain(w[0], w[1..] + y);
      if w[0] != '"' { LiteralEnds(w[1..], t, u); }
    } else if |w| == 1 {
      assert w == "\\";
      UnquoteBackslash(',', "\"" + t);
      UnquoteBackslash(',', "\"" + u);
      UnquotePlain('"', t);
      UnquotePlain('"', u);
    } else {
      Split(w, 2, x);
      Split(w, 2, y);
      assert w[..2] == "\\" + [w[1]];
      Reassociate("\\", [w[1]], w[2..] + x);
      Reassociate("\\", [w[1]], w[2..] + y);
      UnquoteBackslash(w[1], w[2..] + x);
      UnquoteBackslash(w[1], w[2..] + y);
      LiteralEnds(w[2..], t, u);
    }
  }

  lemma CommaAndQuote(t: string)
    ensures Unquote("," + ("\"" + t)) == ","
  {
    hide Unquote;
    UnquotePlain(',', "\"" + t);
    UnquotePlain('"', t);
  }

  /**
   * Read from the middle of a spliced value, what comes behind it cannot make the difference between nothing and "x".
   */
  lemma NothingEitherWay(w: string, t: string, u: string)
    requires ReadValue(w + ("," + ("\"" + t))) == ""
    ensures ReadValue(w + ("," + ("\"" + u))) == ""
  {
    var d := DropBlanks(w);
    BlanksInFront(w, "," + ("\"" + t));
    BlanksInFront(w, "," + ("\"" + u));
    hide DropBlanks;
    if d != "" && d[0] == '"' {
      assert (d + ("," + ("\"" + t)))[1..] == d[1..] + ("," + ("\"" + t));
      assert (d + ("," + ("\"" + u)))[1..] == d[1..] + ("," + ("\"" + u));
      LiteralEnds(d[1..], t, u);
    }
  }

  lemma SplicedReadsSomething(v: string, rest: string)
    requires Spliced(v)
    ensures ReadValue(v + rest) != ""
  {
    assert (v + rest)[0] == v[0];
  }

  lemma MoreItems(fields: seq<Field>)
    requires fields != []
    ensures |Items(fields, false)| >= 2 && Items(fields, false) == "," + ("\"" + Items(fields, false)[2..])
  {
  }

  /** Somewhere else than at field `i`, the reader cannot read both "" and "x" when they are put there. */
  lemma ReadsElsewhere(fields: seq<Field>, i: nat, l: Landing)
    requires i < |fields| && IsIn(l, fields) && !l.Nowhere? && l.n < i
    requires IsIn(l, With(fields, i, "")) && IsIn(l, With(fields, i, "x"))
    ensures ReadFrom(With(fields, i, ""), l) != "" || ReadFrom(With(fields, i, "x"), l) != "x"
  {
    hide Items, ValueText, ReadValue;
    var n, e, x := l.n, With(fields, i, "")[l.n + 1..], With(fields, i, "x")[l.n + 1..];
    var v := fields[n].value;
    match l {
      case AtField(_) =>
        if Spliced(v) {
          assert ValueText(v) == v by { SplicedText(v); }
          SplicedReadsSomething(v, Items(e, false));
        } else {
          assert ValueText(v) == Quoted(Escape(v)) by { SplicedText(v); }
          ReadQuoted(v, Items(e, false));
          ReadQuoted(v, Items(x, false));
        }
      case Inside(_, from) =>
        MoreItems(e);
        MoreItems(x);
        if ReadFrom(With(fields, i, ""), l) == "" {
          NothingEitherWay(v[from..], Items(e, false)[2..], Items(x, false)[2..]);
        }
    }
  }

  lemma SplicedText(v: string)
    ensures ValueText(v) == if Spliced(v) then v else Quoted(Escape(v))
  {
  }

  lemma WithIsWellNamed(fields: seq<Field>, i: nat, v: string)
    requires WellNamed(fields) && i < |fields|
    ensures WellNamed(With(fields, i, v)) && (Unambiguous(With(fields, i, v), i) <==> Unambiguous(fields, i))
  {
    hide KeyName, Clear, Points;
    var other := With(fields, i, v);
    forall f | f in other ensures KeyName(f.key) {
      var j :| 0 <= j < |other| && other[j] == f;
      assert fields[j] in fields && fields[j].key == f.key;
    }
    assert forall j | 0 <= j < i :: other[j] == fields[j];
  }

  /**
   * The exact condition: whatever readable value is put there is read back, if and only if the fields in front are
   * clear of the key or, right in front, point to it.
   */
  lemma ReadsEveryValue(fields: seq<Field>, i: nat)
    requires WellNamed(fields) && i < |fields|
    ensures (forall v | Readable(v) :: Get(Text(With(fields, i, v)), fields[i].key) == v) <==> Unambiguous(fields, i)
  {
    hide Get, Text, Unambiguous, Land, WellNamed, ReadFrom, Spliced, SelfDelimited;
    var k := fields[i].key;
    forall v | Unambiguous(fields, i) && Readable(v) ensures Get(Text(With(fields, i, v)), k) == v {
      WithIsWellNamed(fields, i, v);
      GetUndoesBuild(With(fields, i, v), i);
    }
    if !Unambiguous(fields, i) {
      LandsOnKey(fields, i);
      ReadsAtLanding(fields, i, "");
      ReadsAtLanding(fields, i, "x");
      ReadsElsewhere(fields, i, Land(fields, k));
      assert Readable("") && Readable("x") by { ShortIsReadable(); }
    }
  }

  lemma ShortIsReadable()
    ensures Readable("") && Readable("x")
  {
  }

  lemma ReadsAtLanding(fields: seq<Field>, i: nat, v: string)
    requires WellNamed(fields) && i < |fields|
    ensures var l := Land(fields, fields[i].key);
      IsIn(l, With(fields, i, v)) && Get(Text(With(fields, i, v)), fields[i].key) == ReadFrom(With(fields, i, v), l)
  {
    hide Get, Text, Unambiguous, Land, ReadFrom, KeyName;
    assert KeyName(fields[i].key) by { assert fields[i] in fields; }
    WithIsWellNamed(fields, i, v);
    LandsInFront(fields, i, v);
    GetOfText(With(fields, i, v), fields[i].key);
  }

  /** A key that is not there reads as the empty string. */
  lemma GetAbsent(fields: seq<Field>, k: string)
    requires KeyName(k) && forall f | f in fields :: KeyName(f.key) && f.key != k && Clear(f.value, k)
    ensures Get(Text(fields), k) == ""
  {
    hide Get, Text, Clear, Land, KeyName;
    NoLanding(fields, k);
    GetOfText(fields, k);
  }

  lemma {:induction false} NoLanding(fields: seq<Field>, k: string)
    requires forall f | f in fields :: f.key != k && Clear(f.value, k)
    ensures Land(fields, k) == Nowhere
  {
    hide Decoy, Contains, ColonIn;
    if fields != [] {
      assert fields[0] in fields;
      NoLanding(fields[1..], k);
    }
  }

  lemma FoundSecond(v: string, k: string)
    requires |v| > 1 && v[0] != '"' && Quoted(k) <= v[1..]
    ensures Find(v, Quoted(k), 0) == 1
  {
    hide Find;
    assert v[0..][0] == v[0];
    FindFirst(v, Quoted(k), 1);
  }

  /** An object with the same key, spliced in front of it, is read instead: the reader returns the inner value. */
  lemma NestedMisleads(a: string, k: string, v: string, w: string)
    requires KeyName(a) && KeyName(k) && a != k && !Spliced(v)
    ensures Get(Text([Field(a, Text([Field(k, v)])), Field(k, w)]), k) == v
  {
    hide *;
    var u, fields := Text([Field(k, v)]), [Field(a, Text([Field(k, v)])), Field(k, w)];
    var tail := Quoted(Escape(v)) + "}";
    NestedText(k, v);
    NestedLands(a, k, u, w, tail);
    GetOfText(fields, k);
    var rest := Items(fields[1..], false);
    ReadQuoted(v, "}" + rest);
    assert tail + rest == Quoted(Escape(v)) + ("}" + rest);
    ReadsInside(fields, 0, |Quoted(k)| + 2);
  }

  lemma ReadsInside(fields: seq<Field>, n: nat, from: nat)
    requires n < |fields| && from <= |fields[n].value|
    ensures ReadFrom(fields, Inside(n, from)) == ReadValue(fields[n].value[from..] + Items(fields[n + 1..], false))
  {
    hide ReadValue, Items;
  }

  lemma NestedLands(a: string, k: string, u: string, w: string, tail: string)
    requires a != k && u == "{" + (Quoted(k) + (":" + tail))
    ensures |Quoted(k)| + 2 <= |u| && u[|Quoted(k)| + 2..] == tail
    ensures Land([Field(a, u), Field(k, w)], k) == Inside(0, |Quoted(k)| + 2)
  {
    var e := |Quoted(k)| + 1;
    assert Spliced(u);
    hide Quoted, Find, Spliced;
    assert u[1..] == Quoted(k) + (":" + tail) && u[e..] == ":" + tail && u[e + 1..] == tail;
    assert u[0] == '{';
    FoundSecond(u, k);
    ColonHere(u, e, tail);
    assert Resumes(u, k) == e && ColonIn(u, k) == e;
  }

  lemma NestedText(k: string, v: string)
    requires !Spliced(v)
    ensures Text([Field(k, v)]) == "{" + (Quoted(k) + (":" + (Quoted(Escape(v)) + "}")))
  {
    hide Escape, Quoted;
    assert [Field(k, v)][1..] == [] && Items([], false) == "}";
    TextHead([Field(k, v)]);
  }

  lemma ColonHere(u: string, e: nat, tail: string)
    requires e <= |u| && u[e..] == ":" + tail
    ensures Find(u, ":", e) == e
  {
  }

  /** An array with the key's name, right in front of it, matches and does no harm. */
  lemma ArrayIsHarmless(a: string, k: string, w: string)
    requires KeyName(a) && KeyName(k) && a != k && Readable(w)
    ensures Contains("[" + (Quoted(k) + "]"), Quoted(k))
    ensures Get(Text([Field(a, "[" + (Quoted(k) + "]")), Field(k, w)]), k) == w
  {
    var u, fields := "[" + (Quoted(k) + "]"), [Field(a, "[" + (Quoted(k) + "]")), Field(k, w)];
    QuotedLength(k);
    var e := |Quoted(k)| + 1;
    assert Spliced(u);
    hide Get, Text, ValueText, KeyName, Quoted, Spliced, SelfDelimited, Find;
    assert u[1..] == Quoted(k) + "]" && u[e..] == "]";
    FoundSecond(u, k);
    assert ColonIn(u, k) == -1 by { NoColonHere(u, e); }
    assert Points(u, k);
    GetUndoesBuild(fields, 1);
  }

  lemma NoColonHere(u: string, e: nat)
    requires e <= |u| && u[e..] == "]"
    ensures Find(u, ":", e) == -1
  {
    assert |u| == e + 1 && u[e + 1..] == "";
    assert u[e..][0] == ']' && !(":" <= u[e..]) && !(":" <= u[e + 1..]);
    assert Find(u, ":", e) == Find(u, ":", e + 1) == Find(u, ":", e + 2) == -1;
  }

  /** A decoy misleads the reader to the value of another key. */
  lemma DecoyMisleads()
    ensures Get(Text([Field("a", "c"), Field("b", "x"), Field("c", "y")]), "c") == "x"
  {
    hide Get, Text, ReadValue, Items;
    var fields := [Field("a", "c"), Field("b", "x"), Field("c", "y")];
    assert Decoy("c", "c");
    GetOfText(fields, "c");
    ReadQuoted("x", Items(fields[2..], false));
  }
}
