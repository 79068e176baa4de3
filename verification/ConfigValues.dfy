/**
 Configuration values as text: the printer and the parser of `config get`
 and `config set`, and exactly which values survive the round trip.
 */
module ConfigValues {
  import opened Common
  import opened Decimal
  import opened Text

  datatype Kind = Bool | Int | String | StringList

  datatype Value = BoolValue(b: bool) | IntValue(n: int) | StringValue(s: string) | ListValue(items: seq<string>)

  // --- trimming -----------------------------------------------------------------

  /** White space as Unicode defines it. */
  predicate IsSpace(c: char) {
    var n := c as int;
    || 9 <= n <= 13 || n == 32 || n == 0x85 || n == 0xA0 || n == 0x1680
    || 0x2000 <= n <= 0x200A || n == 0x2028 || n == 0x2029 || n == 0x202F || n == 0x205F || n == 0x3000
  }

  function TrimLeft(s: string): (r: string)
    ensures |r| <= |s| && (r != [] ==> !IsSpace(r[0]) && r[|r| - 1] == s[|s| - 1])
    ensures forall c | c in r :: c in s
  {
    if s != [] && IsSpace(s[0]) then TrimLeft(s[1..]) else s
  }

  function TrimRight(s: string): (r: string)
    ensures |r| <= |s| && (r != [] ==> !IsSpace(r[|r| - 1]) && r[0] == s[0])
    ensures forall c | c in r :: c in s
  {
    if s != [] && IsSpace(s[|s| - 1]) then TrimRight(s[..|s| - 1]) else s
  }

  function TrimSpace(s: string): string { TrimRight(TrimLeft(s)) }

  predicate Trimmed(s: string) {
    s != [] ==> !IsSpace(s[0]) && !IsSpace(s[|s| - 1])
  }

  lemma TrimFixes(s: string)
    ensures Trimmed(TrimSpace(s)) && |TrimSpace(s)| <= |s|
    ensures TrimSpace(s) == s <==> Trimmed(s)
    ensures forall c | c in TrimSpace(s) :: c in s
  {
    if s != [] && IsSpace(s[0]) {
      assert |TrimLeft(s)| < |s|;
    }
  }

  // --- lists --------------------------------------------------------------------

  predicate CommaFree(s: string) { ',' !in s }

  function TrimAll(l: seq<string>): seq<string> {
    seq(|l|, i requires 0 <= i < |l| => TrimSpace(l[i]))
  }

  // --- parsing and printing --------------------------------------------------------

  /** Text to a value of the setting's kind; `json` decodes a JSON array of strings. */
  function ParseValue(kind: Kind, text: string, json: string -> Option<seq<string>>): Option<Value> {
    var t := TrimSpace(text);
    match kind
    case Bool =>
      var word := ToLower(t);
      if word in ["true", "yes", "on", "1"] then Some(BoolValue(true))
      else if word in ["false", "no", "off", "0"] then Some(BoolValue(false))
      else None
    case Int =>
      var n := Atoi(t);
      if n.Some? then Some(IntValue(n.value)) else None
    case StringList => ParseList(t, json)
    case String => Some(StringValue(t))
  }

  function ParseList(t: string, json: string -> Option<seq<string>>): Option<Value> {
    if "[" <= t then
      var l := json(t);
      if l.Some? then Some(ListValue(l.value)) else None
    else if t == "" then Some(ListValue([]))
    else Some(ListValue(TrimAll(Split(t, ','))))
  }

  function Format(v: Value): string {
    match v
    case BoolValue(b) => if b then "true" else "false"
    case IntValue(n) => Itoa(n)
    case StringValue(s) => s
    case ListValue(items) => Join(items, ',')
  }

  function KindOf(v: Value): Kind {
    match v
    case BoolValue(_) => Bool
    case IntValue(_) => Int
    case StringValue(_) => String
    case ListValue(_) => StringList
  }

  /** The lists that survive printing and parsing. */
  predicate PlainList(l: seq<string>) {
    && (forall i | 0 <= i < |l| :: Trimmed(l[i]) && CommaFree(l[i]))
    && !("[" <= Join(l, ','))
    && l != [""]
  }

  /** A joined list of trimmed elements is trimmed, and empty only for the two lists that print as nothing. */
  lemma {:induction false} JoinTrimmed(l: seq<string>)
    requires forall i | 0 <= i < |l| :: Trimmed(l[i])
    ensures Trimmed(Join(l, ','))
    ensures Join(l, ',') == "" <==> l == [] || l == [""]
    decreases |l|
  {
    if |l| == 1 {
      assert l == [l[0]];
    } else if |l| > 1 {
      JoinTrimmed(l[1..]);
      var t, tail := Join(l, ','), Join(l[1..], ',');
      assert t == l[0] + "," + tail;
      assert t[|t| - 1] == if tail == [] then ',' else tail[|tail| - 1];
    }
  }

  /** What any comma-separated text parses to is trimmed and comma-free. */
  lemma {:induction false} ParsedPartsArePlain(t: string)
    ensures var l := TrimAll(Split(t, ','));
            l != [] && forall i | 0 <= i < |l| :: Trimmed(l[i]) && CommaFree(l[i])
  {
    var parts := Split(t, ',');
    forall i | 0 <= i < |parts| ensures Trimmed(TrimSpace(parts[i])) && CommaFree(TrimSpace(parts[i])) {
      TrimFixes(parts[i]);
      assert CommaFree(parts[i]);
    }
  }

  /**
   Printing and parsing a list gives it back exactly when it is plain: its
   elements trimmed and comma-free, its text not opening with a bracket, and
   it not being the single empty string. The decoder is only assumed to
   yield less text than the JSON it reads, as quotes and brackets guarantee.
   */
  lemma ListRoundTripIff(l: seq<string>, json: string -> Option<seq<string>>)
    requires forall u: string :: json(u).Some? ==> |Join(json(u).value, ',')| < |u|
    ensures ParseValue(StringList, Format(ListValue(l)), json) == Some(ListValue(l)) <==> PlainList(l)
  {
    var t := Join(l, ',');
    var u := TrimSpace(t);
    TrimFixes(t);
    if PlainList(l) {
      JoinTrimmed(l);
      if l != [] {
        SplitOfJoin(l, ',');
        AllTrimmedStay(l);
      }
    } else if ParseList(u, json) == Some(ListValue(l)) {
      assert "[" <= u ==> json(u) != Some(l);
      if u != "" {
        ParsedPartsArePlain(u);
        JoinTrimmed(l);
      }
    }
  }

  lemma AllTrimmedStay(l: seq<string>)
    requires forall i | 0 <= i < |l| :: Trimmed(l[i])
    ensures TrimAll(l) == l
  {
    forall i | 0 <= i < |l| ensures TrimAll(l)[i] == l[i] {
      TrimFixes(l[i]);
    }
  }

  /** The values that survive printing and parsing. */
  predicate Survives(v: Value) {
    match v
    case BoolValue(_) => true
    case IntValue(n) => MIN_INT <= n <= MAX_INT
    case StringValue(s) => Trimmed(s)
    case ListValue(items) => PlainList(items)
  }

  lemma IntRoundTripIff(n: int, json: string -> Option<seq<string>>)
    ensures ParseValue(Int, Format(IntValue(n)), json) == Some(IntValue(n)) <==> MIN_INT <= n <= MAX_INT
  {
    ValueOfDigits(if n < 0 then -n else n);
    TrimFixes(Itoa(n));
    assert n < 0 ==> Itoa(n)[|Itoa(n)| - 1] == Digits(-n)[|Digits(-n)| - 1];
    if MIN_INT <= n <= MAX_INT {
      AtoiItoa(n);
    }
  }

  lemma BoolRoundTrip(b: bool, json: string -> Option<seq<string>>)
    ensures ParseValue(Bool, Format(BoolValue(b)), json) == Some(BoolValue(b))
  {
    var s := Format(BoolValue(b));
    assert |s| == if b then 4 else 5;
    TrimFixes(s);
    assert ToLower(s) == s;
    assert "true" in ["true", "yes", "on", "1"] by { assert ["true", "yes", "on", "1"][0] == "true"; }
    assert "false" in ["false", "no", "off", "0"] by { assert ["false", "no", "off", "0"][0] == "false"; }
    assert "false" !in ["true", "yes", "on", "1"] by { assert |"false"| == 5; }
  }

  /** Parser and printer undo each other on exactly the values that survive. */
  lemma RoundTripIff(v: Value, json: string -> Option<seq<string>>)
    requires forall u: string :: json(u).Some? ==> |Join(json(u).value, ',')| < |u|
    ensures ParseValue(KindOf(v), Format(v), json) == Some(v) <==> Survives(v)
  {
    match v
    case BoolValue(b) => BoolRoundTrip(b, json);
    case IntValue(n) => IntRoundTripIff(n, json);
    case StringValue(s) => TrimFixes(s);
    case ListValue(items) => ListRoundTripIff(items, json);
  }

  lemma {:induction false} TrimKeepsFirst(s: string)
    requires s != "" && !IsSpace(s[0])
    ensures TrimSpace(s) != "" && TrimSpace(s)[0] == s[0]
  {
    TrimRightKeepsFirst(s);
  }

  lemma {:induction false} TrimRightKeepsFirst(s: string)
    requires s != "" && !IsSpace(s[0])
    ensures TrimRight(s) != "" && TrimRight(s)[0] == s[0]
    decreases |s|
  {
    if IsSpace(s[|s| - 1]) {
      TrimRightKeepsFirst(s[..|s| - 1]);
    }
  }

  lemma {:induction false} ParsedListIsPlain(t: string)
    requires t != "" && Trimmed(t) && !("[" <= t)
    ensures PlainList(TrimAll(Split(t, ',')))
  {
    var parts := Split(t, ',');
    var l := TrimAll(parts);
    ParsedPartsArePlain(t);
    SplitBegins(t, ',');
    assert l[0] == TrimSpace(parts[0]);
    if parts[0] != "" {
      assert parts[0][0] == t[0];
      TrimKeepsFirst(parts[0]);
      assert Join(l, ',')[0] == t[0];
    } else {
      assert |l| > 1 && TrimSpace("") == "";
      assert Join(l, ',')[0] == ',';
    }
  }

  /**
   Whatever text is accepted, but for a JSON list, becomes a value that
   printing and parsing give back: reading a setting and writing it again
   changes nothing.
   */
  lemma ParsedSurvives(kind: Kind, text: string, json: string -> Option<seq<string>>)
    requires ParseValue(kind, text, json).Some?
    requires kind == StringList ==> !("[" <= TrimSpace(text))
    ensures KindOf(ParseValue(kind, text, json).value) == kind && Survives(ParseValue(kind, text, json).value)
  {
    TrimFixes(text);
    if kind == StringList && TrimSpace(text) != "" {
      ParsedListIsPlain(TrimSpace(text));
    }
  }

  /** Space around a text does not matter, and for switches neither does its case. */
  lemma ParseIgnoresSpace(kind: Kind, text: string, json: string -> Option<seq<string>>)
    ensures ParseValue(kind, TrimSpace(text), json) == ParseValue(kind, text, json)
    ensures ParseValue(Bool, ToLower(TrimSpace(text)), json) == ParseValue(Bool, text, json)
  {
    var t := TrimSpace(text);
    TrimFixes(text);
    TrimFixes(t);
    LowerTrimmed(t);
    TrimFixes(ToLower(t));
    assert ToLower(ToLower(t)) == ToLower(t);
  }

  lemma LowerTrimmed(t: string)
    requires Trimmed(t)
    ensures Trimmed(ToLower(t))
  {
  }

  /** The words for a switch, in lower case. */
  lemma SwitchWords(w: string, json: string -> Option<seq<string>>)
    requires Trimmed(w) && ToLower(w) == w
    ensures ParseValue(Bool, w, json)
         == if w == "true" || w == "yes" || w == "on" || w == "1" then Some(BoolValue(true))
            else if w == "false" || w == "no" || w == "off" || w == "0" then Some(BoolValue(false))
            else None
  {
    TrimFixes(w);
  }
}
