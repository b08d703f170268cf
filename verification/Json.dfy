/** The flat JSON builder and the substring-search reader of src/internal/json_helpers.h. */
module Json {

  /** One entry of the field map. std::map iterates in ascending key order; nothing here depends on it. */
  datatype Field = Field(key: string, value: string)

  // ---- What JsonBuild writes ----

  function EscapeChar(c: char): (e: string)
    ensures e != ""
  {
    if c == '"' then "\\\"" else if c == '\\' then "\\\\" else if c == '\n' then "\\n" else [c]
  }

  function Escape(v: string): string {
    if v == "" then "" else EscapeChar(v[0]) + Escape(v[1..])
  }

  /** Embedded verbatim rather than escaped and quoted. */
  predicate Spliced(v: string) {
    v != "" && (v[0] == '{' || v[0] == '[' || v == "true" || v == "false" || v == "null")
  }

  function Quoted(s: string): string {
    "\"" + s + "\""
  }

  function ValueText(v: string): string {
    if Spliced(v) then v else Quoted(Escape(v))
  }

  function FieldText(f: Field): string {
    Quoted(f.key) + ":" + ValueText(f.value)
  }

  function Items(fields: seq<Field>, first: bool): string {
    if fields == [] then "}" else
    (if first then "" else ",") + FieldText(fields[0]) + Items(fields[1..], false)
  }

  function Text(fields: seq<Field>): string {
    "{" + Items(fields, true)
  }

  /** The character loop of JsonBuild; the evidence and enrollment arrays repeat it. */
  method AppendEscaped(start: string, value: string) returns (json: string)
    ensures json == start + Escape(value)
  {
    json := start;
    for j := 0 to |value|
      invariant json + Escape(value[j..]) == start + Escape(value)
    {
      var c := value[j];
      assert value[j..][1..] == value[j + 1..];
      assert json + Escape(value[j..]) == (json + EscapeChar(c)) + Escape(value[j + 1..]);
      if c == '"' { json := json + "\\\""; }
      else if c == '\\' { json := json + "\\\\"; }
      else if c == '\n' { json := json + "\\n"; }
      else { json := json + [c]; }
    }
  }

  /** Verbatim, or escaped between quotes. */
  method AppendValue(start: string, value: string) returns (json: string)
    ensures json == start + ValueText(value)
  {
    json := start;
    if value != "" && (value[0] == '{' || value[0] == '[' || value == "true" || value == "false" || value == "null") {
      json := json + value;
    } else {
      json := json + "\"";
      json := AppendEscaped(json, value);
      json := json + "\"";
    }
  }

  /** One round of JsonBuild's loop. */
  method AppendField(start: string, first: bool, f: Field) returns (json: string)
    ensures json == start + ((if first then "" else ",") + FieldText(f))
  {
    json := start;
    if !first { json := json + ","; }
    json := json + ("\"" + f.key + "\":");
    json := AppendValue(json, f.value);
    assert "\"" + f.key + "\":" == Quoted(f.key) + ":";
    Regroup(start, if first then "" else ",", Quoted(f.key) + ":", ValueText(f.value));
  }

  lemma ItemsStep(fields: seq<Field>, i: nat, first: bool)
    requires i < |fields|
    ensures Items(fields[i..], first)
         == ((if first then "" else ",") + FieldText(fields[i])) + Items(fields[i + 1..], false)
  {
    assert fields[i..][1..] == fields[i + 1..];
  }

  method JsonBuild(fields: seq<Field>) returns (json: string)
    ensures json == Text(fields)
  {
    json := "{";
    var first := true;
    for i := 0 to |fields|
      invariant first == (i == 0)
      invariant json + Items(fields[i..], first) == Text(fields)
    {
      ItemsStep(fields, i, first);
      Reassociate(json, (if first then "" else ",") + FieldText(fields[i]), Items(fields[i + 1..], false));
      json := AppendField(json, first, fields[i]);
      first := false;
    }
    assert fields[|fields|..] == [];
    json := json + "}";
  }

  lemma Reassociate(a: string, b: string, c: string)
    ensures a + (b + c) == (a + b) + c
  {
  }

  lemma Regroup(a: string, b: string, c: string, d: string)
    ensures ((a + b) + c) + d == a + (b + (c + d))
  {
  }

  // ---- What JsonGet reads ----

  ghost predicate At(s: string, pat: string, i: int) {
    0 <= i <= |s| && pat <= s[i..]
  }

  /** std::string::find, -1 standing for npos: the first match at or after `from`. */
  function Find(s: string, pat: string, from: nat): (r: int)
    ensures r == -1 || (from <= r && r + |pat| <= |s|)
    decreases |s| - from
  {
    if from > |s| then -1
    else if pat <= s[from..] then from
    else Find(s, pat, from + 1)
  }

  lemma {:induction false} FindIsFirst(s: string, pat: string, from: nat)
    ensures var r := Find(s, pat, from);
            && (r != -1 ==> At(s, pat, r))
            && forall i :: from <= i && (r == -1 || i < r) ==> !At(s, pat, i)
    decreases |s| - from
  {
    if from <= |s| && !(pat <= s[from..]) { FindIsFirst(s, pat, from + 1); }
  }

  function DropBlanks(s: string): string {
    if s != "" && (s[0] == ' ' || s[0] == '\t') then DropBlanks(s[1..]) else s
  }

  /** The string literal whose opening quote has just been passed. */
  function Unquote(s: string): string {
    if s == "" || s[0] == '"' then ""
    else if s[0] == '\\' && 1 < |s| then [if s[1] == 'n' then '\n' else s[1]] + Unquote(s[2..])
    else [s[0]] + Unquote(s[1..])
  }

  /** How many characters of `s` belong to a bare value, counting brackets and nothing else. */
  function BareLength(s: string, depth: nat): (n: nat)
    ensures n <= |s|
  {
    if s == "" then 0
    else if s[0] == '{' || s[0] == '[' then 1 + BareLength(s[1..], depth + 1)
    else if s[0] == '}' || s[0] == ']' then (if depth == 0 then 0 else 1 + BareLength(s[1..], depth - 1))
    else if depth == 0 && s[0] == ',' then 0
    else 1 + BareLength(s[1..], depth)
  }

  function ReadValue(s: string): string {
    var v := DropBlanks(s);
    if v == "" then "" else if v[0] == '"' then Unquote(v[1..]) else v[..BareLength(v, 0)]
  }

  function ReadAfterColon(json: string, from: nat): string {
    var colon := Find(json, ":", from);
    if colon == -1 then "" else ReadValue(json[colon + 1..])
  }

  function Get(json: string, key: string): string {
    var at := Find(json, Quoted(key), 0);
    if at == -1 then "" else ReadAfterColon(json, at + |Quoted(key)|)
  }

  method ReadString(json: string, open: nat) returns (result: string)
    requires open <= |json|
    ensures result == Unquote(json[open..])
  {
    var pos := open;
    result := "";
    while pos < |json| && json[pos] != '"'
      invariant open <= pos <= |json|
      invariant result + Unquote(json[pos..]) == Unquote(json[open..])
    {
      ghost var s, before := json[pos..], result;
      assert s[1..] == json[pos + 1..];
      if json[pos] == '\\' && pos + 1 < |json| {
        assert s[2..] == json[pos + 2..];
        pos := pos + 1;
        if json[pos] == 'n' { result := result + "\n"; } else { result := result + [json[pos]]; }
      } else {
        result := result + [json[pos]];
      }
      pos := pos + 1;
      Reassociate(before, Unquote(s)[..1], Unquote(json[pos..]));
    }
  }

  method SkipBare(json: string, start: nat) returns (pos: nat)
    requires start <= |json|
    ensures pos == start + BareLength(json[start..], 0)
  {
    pos := start;
    var depth := 0;
    while pos < |json|
      invariant start <= pos <= |json| && 0 <= depth
      invariant pos + BareLength(json[pos..], depth) == start + BareLength(json[start..], 0)
    {
      assert json[pos..][1..] == json[pos + 1..];
      if json[pos] == '{' || json[pos] == '[' {
        depth := depth + 1;
      } else if json[pos] == '}' || json[pos] == ']' {
        if depth == 0 { break; }
        depth := depth - 1;
      } else if depth == 0 && (json[pos] == ',' || json[pos] == '}') {
        break;
      }
      pos := pos + 1;
    }
  }

  method SkipBlanks(json: string, start: nat) returns (pos: nat)
    requires start <= |json|
    ensures start <= pos <= |json| && json[pos..] == DropBlanks(json[start..])
  {
    pos := start;
    while pos < |json| && (json[pos] == ' ' || json[pos] == '\t')
      invariant start <= pos <= |json| && DropBlanks(json[pos..]) == DropBlanks(json[start..])
    {
      assert json[pos..][1..] == json[pos + 1..];
      pos := pos + 1;
    }
  }

  method JsonGet(json: string, key: string) returns (result: string)
    ensures result == Get(json, key)
  {
    hide Find, Unquote, BareLength, DropBlanks;
    var search := "\"" + key + "\"";
    var pos := Find(json, search, 0);
    if pos == -1 { return ""; }
    pos := Find(json, ":", pos + |search|);
    if pos == -1 { return ""; }
    pos := pos + 1;
    pos := SkipBlanks(json, pos);
    if pos >= |json| { return ""; }
    if json[pos] == '"' {
      pos := pos + 1;
      assert json[pos - 1..][1..] == json[pos..];
      result := ReadString(json, pos);
    } else {
      var end := SkipBare(json, pos);
      assert json[pos..end] == json[pos..][..end - pos];
      result := json[pos..end];
    }
  }
}
