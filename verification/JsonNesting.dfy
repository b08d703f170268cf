/** Objects spliced into objects: when the text of one can be the value of another and still be read back. */
module JsonNesting {
  import opened Json
  import opened JsonRoundTrip

  /** Text that is neither escaped nor punctuated: hex, Base64, UUIDs. */
  predicate Flat(v: string) {
    forall c | c in v :: c !in "\"\\\n{}[],:"
  }

  /** A value that cannot unbalance the object it is put in. */
  predicate Tidy(v: string) {
    Flat(v) || (Spliced(v) && SelfDelimited(v))
  }

  predicate Alphanumeric(k: string) {
    k != "" && forall i | 0 <= i < |k| :: '0' <= k[i] <= 'z' && !(':' <= k[i] <= '@') && !('[' <= k[i] <= '`')
  }

  lemma AlphanumericIsName(k: string)
    requires Alphanumeric(k)
    ensures KeyName(k) && Flat(k) && k[0] !in "-,]"
  {
  }

  // ---- Bracket depth ----

  lemma {:induction false} DepthConcat(a: string, b: string, depth: nat)
    ensures BareDepth(a + b, depth) == if BareDepth(a, depth) == -1 then -1 else BareDepth(b, BareDepth(a, depth))
  {
    if a == "" {
      assert a + b == b;
    } else {
      assert (a + b)[1..] == a[1..] + b;
      if a[0] == '{' || a[0] == '[' {
        DepthConcat(a[1..], b, depth + 1);
      } else if a[0] == '}' || a[0] == ']' {
        if depth > 0 { DepthConcat(a[1..], b, depth - 1); }
      } else {
        DepthConcat(a[1..], b, depth);
      }
    }
  }

  /** What balances at one depth balances deeper down. */
  lemma {:induction false} DepthShift(v: string, depth: nat, more: nat)
    requires BareDepth(v, depth) != -1
    ensures BareDepth(v, depth + more) == BareDepth(v, depth) + more
  {
    if v != "" {
      if v[0] == '{' || v[0] == '[' {
        DepthShift(v[1..], depth + 1, more);
      } else if v[0] == '}' || v[0] == ']' {
        DepthShift(v[1..], depth - 1, more);
      } else {
        DepthShift(v[1..], depth, more);
      }
    }
  }

  predicate Level(v: string) {
    forall c | c in v :: c !in "{}[]"
  }

  /** Text without brackets keeps the depth, and inside an object its commas do not matter. */
  lemma {:induction false} LevelDepth(v: string, depth: nat)
    requires Level(v) && (depth > 0 || ',' !in v)
    ensures BareDepth(v, depth) == depth
  {
    if v != "" {
      assert v[0] in v;
      LevelDepth(v[1..], depth);
    }
  }

  lemma FlatIsPlain(v: string)
    requires Flat(v)
    ensures Escape(v) == v && Level(v) && Level(Quoted(v)) && SelfDelimited(v)
  {
    hide Escape, BareDepth;
    PlainEscape(v);
    LevelDepth(v, 0);
  }

  lemma TidyDepth(v: string, depth: nat)
    requires Tidy(v) && depth > 0
    ensures BareDepth(ValueText(v), depth) == depth
  {
    hide Escape, BareDepth, Level;
    if Flat(v) {
      FlatIsPlain(v);
      LevelDepth(v, depth);
      LevelDepth(Quoted(v), depth);
    } else {
      DepthShift(v, 0, depth);
    }
  }

  lemma FieldDepth(f: Field, depth: nat)
    requires Flat(f.key) && Tidy(f.value) && depth > 0
    ensures BareDepth(FieldText(f), depth) == depth
  {
    hide BareDepth, Tidy, ValueText;
    var head := Quoted(f.key) + ":";
    assert Level(head);
    LevelDepth(head, depth);
    TidyDepth(f.value, depth);
    DepthConcat(head, ValueText(f.value), depth);
  }

  lemma {:induction false} ItemsDepth(fields: seq<Field>, first: bool)
    requires forall f | f in fields :: Flat(f.key) && Tidy(f.value)
    ensures BareDepth(Items(fields, first), 1) == 0
  {
    if fields == [] {
      assert BareDepth("", 0) == 0;
      assert "}"[1..] == "";
    } else {
      hide BareDepth, Flat, Tidy, FieldText;
      assert fields[0] in fields;
      var comma, item := if first then "" else ",", FieldText(fields[0]);
      LevelDepth(comma, 1);
      FieldDepth(fields[0], 1);
      ItemsDepth(fields[1..], false);
      DepthConcat(comma, item, 1);
      DepthConcat(comma + item, Items(fields[1..], false), 1);
    }
  }

  /** An object of tidy values delimits itself, so it is tidy in turn. */
  lemma TextIsTidy(fields: seq<Field>)
    requires forall f | f in fields :: Flat(f.key) && Tidy(f.value)
    ensures Spliced(Text(fields)) && SelfDelimited(Text(fields)) && Tidy(Text(fields))
  {
    hide Flat, Items;
    ItemsDepth(fields, true);
    assert Text(fields)[1..] == Items(fields, true);
  }

  // ---- Where a key does not occur ----

  ghost predicate Lacks(s: string, k: string) {
    forall i: int :: !At(s, Quoted(k), i)
  }

  lemma LacksIsNotContained(s: string, k: string)
    ensures Lacks(s, k) <==> !Contains(s, Quoted(k))
  {
    hide At, Find;
    FindIsFirst(s, Quoted(k), 0);
    assert forall i: int :: i < 0 ==> !At(s, Quoted(k), i) by { OutOfRange(s, Quoted(k)); }
  }

  lemma OutOfRange(s: string, pat: string)
    ensures forall i: int :: i < 0 ==> !At(s, pat, i)
  {
  }

  lemma ChunkLacks(lead: string, f: Field, rest: string, k: string)
    requires |lead| == 1 && lead[0] in "{," && rest != "" && rest[0] in ",}"
    requires KeyName(k) && KeyName(f.key) && f.key != k && Clear(f.value, k) && Lacks(rest, k)
    ensures Lacks((lead + FieldText(f)) + rest, k)
  {
    hide FieldText, Decoy, Contains, KeyName;
    var p, t := lead + FieldText(f), FieldText(f) + rest;
    assert p + rest == lead + t;
    forall j: int ensures !At(p + rest, Quoted(k), j) {
      if At(p + rest, Quoted(k), j) {
        NoHitAtLead(lead, t, k);
        if j < |p| {
          AtSuffix(lead, t, Quoted(k), j);
          HitInField(f, k, rest, j - 1);
        } else {
          AtSuffix(p, rest, Quoted(k), j);
        }
        assert false;
      }
    }
  }

  lemma {:induction false} ItemsLack(lead: string, fields: seq<Field>, k: string)
    requires |lead| == 1 && lead[0] in "{," && KeyName(k) && fields != []
    requires forall f | f in fields :: KeyName(f.key) && f.key != k && Clear(f.value, k)
    ensures Lacks((lead + FieldText(fields[0])) + Items(fields[1..], false), k)
    decreases |fields|
  {
    hide Clear, Lacks, KeyName, FieldText;
    var tail := fields[1..];
    assert fields[0] in fields;
    ItemsHead(tail);
    if tail == [] {
      BraceLacks(k);
    } else {
      assert forall f | f in tail :: f in fields;
      ItemsLack(",", tail, k);
    }
    ChunkLacks(lead, fields[0], Items(tail, false), k);
  }

  lemma BraceLacks(k: string)
    ensures Lacks("}", k)
  {
  }

  /** An object with neither the key nor anything like it does not contain it, however it is nested. */
  lemma TextLacks(fields: seq<Field>, k: string)
    requires KeyName(k) && fields != []
    requires forall f | f in fields :: KeyName(f.key) && f.key != k && Clear(f.value, k)
    ensures !Contains(Text(fields), Quoted(k))
  {
    hide Clear, Lacks, KeyName, FieldText, Contains;
    ItemsLack("{", fields, k);
    TextHead(fields);
    LacksIsNotContained(Text(fields), k);
  }

  lemma ContainsHasQuote(v: string, k: string)
    requires Contains(v, Quoted(k))
    ensures '"' in v
  {
    hide Find;
    var at := Find(v, Quoted(k), 0);
    FindIsFirst(v, Quoted(k), 0);
    AtChars(v, k, at);
    assert v[at] in v;
  }

  lemma EndHasQuote(v: string, k: string)
    requires EndsWith(v, "\"" + k)
    ensures '"' in v
  {
    assert v[|v| - |k| - 1..][0] == v[|v| - |k| - 1];
    assert v[|v| - |k| - 1] in v;
  }

  /** Flat text is clear of every key but one it equals. */
  lemma FlatIsClear(v: string, k: string)
    requires Flat(v) && v != k
    ensures Clear(v, k)
  {
    hide Contains, EndsWith, Spliced;
    if Contains(v, Quoted(k)) { ContainsHasQuote(v, k); }
    if EndsWith(v, "\"" + k) { EndHasQuote(v, k); }
  }

  // ---- Reading every field ----

  /** Field `i` is read back when its value is tidy or quoted and what is in front of it is clear of its key. */
  lemma ReadsField(fields: seq<Field>, i: nat)
    requires WellNamed(fields) && i < |fields| && Readable(fields[i].value)
    requires Unambiguous(fields, i)
    ensures Get(Text(fields), fields[i].key) == fields[i].value
  {
    hide *;
    GetUndoesBuild(fields, i);
  }

  lemma TidyReads(v: string)
    requires Tidy(v)
    ensures Readable(v)
  {
    if Flat(v) { FlatIsPlain(v); }
  }
}
