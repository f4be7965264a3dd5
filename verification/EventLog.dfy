/** The one-line event format: evt=<domain>.<event> key=value key="quoted value" ...
    Printer, parser, and the round trip between them. */
module EventLogs {
  import opened Options

  /** Numbers are rendered to text before they get here. */
  datatype Value = Absent | Bool(b: bool) | Text(text: string)

  type Field = (string, Value)

  const EVT := "evt"

  // ----- character classes -----

  /** \s of Python's re on text */
  predicate IsSpace(c: char) {
    || '\t' <= c <= '\U{d}' || '\U{1c}' <= c <= ' ' || c == '\U{85}' || c == '\U{a0}' || c == '\U{1680}'
    || '\U{2000}' <= c <= '\U{200a}' || c == '\U{2028}' || c == '\U{2029}' || c == '\U{202f}'
    || c == '\U{205f}' || c == '\U{3000}'
  }

  predicate Lower(c: char) {
    'a' <= c <= 'z'
  }

  predicate WordChar(c: char) {
    Lower(c) || '0' <= c <= '9' || c == '_'
  }

  predicate KeyStart(c: char) {
    Lower(c) || 'A' <= c <= 'Z' || c == '_'
  }

  predicate KeyChar(c: char) {
    KeyStart(c) || '0' <= c <= '9'
  }

  predicate NeedsQuote(c: char) {
    IsSpace(c) || c == '"' || c == '=' || c == '\\'
  }

  // ----- names and keys -----

  /** [a-z][a-z0-9_]* */
  predicate IsWord(s: string) {
    s != "" && Lower(s[0]) && forall i :: 0 <= i < |s| ==> WordChar(s[i])
  }

  /** word.word */
  predicate IsName(s: string) {
    exists i :: 0 <= i < |s| && s[i] == '.' && IsWord(s[..i]) && IsWord(s[i + 1..])
  }

  /** A pattern that ends in $ also accepts one trailing newline. */
  function Chomp(s: string): string {
    if s != "" && s[|s| - 1] == '\n' then s[..|s| - 1] else s
  }

  predicate AcceptsName(s: string) {
    IsName(Chomp(s))
  }

  predicate AcceptsKey(s: string) {
    IsWord(Chomp(s))
  }

  function StripUnderscores(s: string): string {
    if s != "" && s[|s| - 1] == '_' then StripUnderscores(s[..|s| - 1]) else s
  }

  // ----- printing -----

  function TextOf(v: Value): string
    requires !v.Absent?
  {
    match v
    case Bool(b) => if b then "true" else "false"
    case Text(s) => s
  }

  function EscapeChar(c: char): string {
    if c == '\\' then "\\\\"
    else if c == '"' then "\\\""
    else if c == '\n' then "\\n"
    else if c == '\r' then "\\r"
    else if c == '\t' then "\\t"
    else [c]
  }

  function Escape(s: string): string {
    if s == "" then "" else EscapeChar(s[0]) + Escape(s[1..])
  }

  predicate Quoted(s: string) {
    s == "" || exists i :: 0 <= i < |s| && NeedsQuote(s[i])
  }

  function FormatText(s: string): string {
    if Quoted(s) then "\"" + Escape(s) + "\"" else s
  }

  predicate GoodKeys(fields: seq<Field>) {
    forall i :: 0 <= i < |fields| ==> AcceptsKey(StripUnderscores(fields[i].0)) && StripUnderscores(fields[i].0) != EVT
  }

  /** The fields as they follow the name, each with its leading blank */
  function Body(fields: seq<Field>): string {
    if fields == [] then ""
    else
      var (key, value) := fields[0];
      (if value.Absent? then "" else " " + StripUnderscores(key) + "=" + FormatText(TextOf(value))) + Body(fields[1..])
  }

  function FormatEvent(name: string, fields: seq<Field>): Option<string> {
    if !AcceptsName(name) || !GoodKeys(fields) then None
    else Some(EVT + "=" + name + Body(fields))
  }

  // ----- parsing -----

  function UnescapeChar(c: char): char {
    if c == 'n' then '\n' else if c == 'r' then '\r' else if c == 't' then '\t' else c
  }

  function Unquote(s: string): string {
    if s == "" then ""
    else if s[0] == '\\' && |s| >= 2 then [UnescapeChar(s[1])] + Unquote(s[2..])
    else [s[0]] + Unquote(s[1..])
  }

  function KeyRun(s: string): (n: nat)
    ensures n <= |s|
    ensures forall i :: 0 <= i < n ==> KeyChar(s[i])
    ensures n < |s| ==> !KeyChar(s[n])
  {
    if s == "" || !KeyChar(s[0]) then 0
    else
      var n := KeyRun(s[1..]);
      assert forall i :: 1 <= i <= n ==> s[i] == s[1..][i - 1];
      1 + n
  }

  function WordRun(s: string): (n: nat)
    ensures n <= |s|
    ensures forall i :: 0 <= i < n ==> !IsSpace(s[i])
    ensures n < |s| ==> IsSpace(s[n])
  {
    if s == "" || IsSpace(s[0]) then 0
    else
      var n := WordRun(s[1..]);
      assert forall i :: 1 <= i <= n ==> s[i] == s[1..][i - 1];
      1 + n
  }

  /** Length of what follows an opening quote, the closing quote included; 0 if it is not closed */
  function QuoteRun(s: string): (n: nat)
    ensures n <= |s|
  {
    if s == "" then 0
    else if s[0] == '"' then 1
    else if s[0] == '\\' then
      if |s| >= 2 && s[1] != '\n' && QuoteRun(s[2..]) != 0 then 2 + QuoteRun(s[2..]) else 0
    else if QuoteRun(s[1..]) != 0 then 1 + QuoteRun(s[1..])
    else 0
  }

  /** Length of the value at the head of s: a closed quotation, or else everything up to a blank */
  function ValueRun(s: string): (n: nat)
    ensures n <= |s|
  {
    if s != "" && s[0] == '"' && QuoteRun(s[1..]) != 0 then 1 + QuoteRun(s[1..]) else WordRun(s)
  }

  /** Length of the key of a pair key=value at the head of s; 0 if there is no pair */
  function PairKey(s: string): (n: nat)
    ensures n < |s| || n == 0
    ensures n != 0 ==> s[n] == '='
  {
    if s != "" && KeyStart(s[0]) && KeyRun(s) < |s| && s[KeyRun(s)] == '=' then KeyRun(s) else 0
  }

  /** The pairs that a left-to-right search finds */
  function Scan(s: string): seq<(string, string)>
    decreases |s|
  {
    if s == "" then []
    else if PairKey(s) == 0 then Scan(s[1..])
    else
      var k := PairKey(s);
      var v := s[k + 1..];
      [(s[..k], v[..ValueRun(v)])] + Scan(v[ValueRun(v)..])
  }

  function Decode(raw: string): string {
    if raw != "" && raw[0] == '"' then
      if |raw| == 1 then "" else Unquote(raw[1..|raw| - 1])
    else raw
  }

  /** Later pairs overwrite earlier ones. */
  function Dictionary(pairs: seq<(string, string)>): map<string, string> {
    if pairs == [] then map[]
    else
      var last := |pairs| - 1;
      Dictionary(pairs[..last])[pairs[last].0 := Decode(pairs[last].1)]
  }

  function ParseEvent(message: string): Option<(string, map<string, string>)> {
    if !(EVT + "=" <= message) then None
    else
      EvtIsFound(message);
      var d := Dictionary(Scan(message));
      Some((d[EVT], d - {EVT}))
  }

  lemma {:induction false} DictionaryKeys(pairs: seq<(string, string)>)
    ensures forall k :: k in Dictionary(pairs) <==> exists i :: 0 <= i < |pairs| && pairs[i].0 == k
  {
    if pairs != [] {
      DictionaryKeys(pairs[..|pairs| - 1]);
    }
  }

  /** Parsing is total: a message that begins like an event has an event name. */
  lemma EvtIsFound(message: string)
    requires EVT + "=" <= message
    ensures EVT in Dictionary(Scan(message))
  {
    assert message[0] == 'e' && message[1] == 'v' && message[2] == 't' && message[3] == '=';
    assert KeyRun(message) == 3;
    assert Scan(message)[0].0 == message[..3] == EVT;
    DictionaryKeys(Scan(message));
  }

  // ----- a value survives -----

  lemma UnquoteStep(c: char, rest: string)
    ensures Unquote(EscapeChar(c) + rest) == [c] + Unquote(rest)
  {
    var e := EscapeChar(c);
    assert (e + rest)[|e|..] == rest;
  }

  lemma {:induction false} UnquoteEscape(s: string)
    ensures Unquote(Escape(s)) == s
  {
    hide Unquote, EscapeChar;
    if s == "" {
      UnquoteNothing();
    } else {
      UnquoteEscape(s[1..]);
      UnquoteStep(s[0], Escape(s[1..]));
    }
  }

  lemma UnquoteNothing()
    ensures Unquote("") == ""
  {
  }

  lemma QuoteStep(c: char, tail: string)
    requires QuoteRun(tail) != 0
    ensures QuoteRun(EscapeChar(c) + tail) == |EscapeChar(c)| + QuoteRun(tail)
  {
    var e := EscapeChar(c);
    assert (e + tail)[|e|..] == tail;
  }

  lemma {:induction false} QuoteRunEscape(s: string, rest: string)
    ensures QuoteRun(Escape(s) + "\"" + rest) == |Escape(s)| + 1
  {
    hide EscapeChar;
    if s == "" {
      assert Escape(s) + "\"" + rest == "\"" + rest;
    } else {
      QuoteRunEscape(s[1..], rest);
      var tail := Escape(s[1..]) + "\"" + rest;
      assert Escape(s) + "\"" + rest == EscapeChar(s[0]) + tail;
      QuoteStep(s[0], tail);
    }
  }

  lemma WordRunIs(s: string, n: nat)
    requires n <= |s| && (forall i :: 0 <= i < n ==> !IsSpace(s[i])) && (n < |s| ==> IsSpace(s[n]))
    ensures WordRun(s) == n
  {
    var r := WordRun(s);
    assert !(r < n) && !(n < r);
  }

  lemma KeyRunIs(s: string, n: nat)
    requires n <= |s| && (forall i :: 0 <= i < n ==> KeyChar(s[i])) && (n < |s| ==> !KeyChar(s[n]))
    ensures KeyRun(s) == n
  {
    var r := KeyRun(s);
    assert !(r < n) && !(n < r);
  }

  /** What may follow a value: nothing, or a blank */
  predicate Closes(rest: string) {
    rest == "" || IsSpace(rest[0])
  }

  /** The scanner takes exactly the printed value, and decoding gives the text back. */
  lemma ValueSurvives(s: string, rest: string)
    requires Closes(rest)
    ensures ValueRun(FormatText(s) + rest) == |FormatText(s)|
    ensures Decode(FormatText(s)) == s
  {
    var f := FormatText(s);
    if Quoted(s) {
      assert (f + rest)[1..] == Escape(s) + "\"" + rest;
      QuoteRunEscape(s, rest);
      assert f[1..|f| - 1] == Escape(s);
      UnquoteEscape(s);
    } else {
      PlainValue(s, rest);
    }
  }

  lemma PlainValue(s: string, rest: string)
    requires Closes(rest) && !Quoted(s)
    ensures ValueRun(s + rest) == |s| && Decode(s) == s
  {
    assert forall i :: 0 <= i < |s| ==> !NeedsQuote(s[i]);
    assert (s + rest)[0] == s[0];
    WordRunIs(s + rest, |s|);
  }

  // ----- a pair survives -----

  lemma PairKeyOf(key: string, tail: string)
    requires IsWord(key)
    ensures PairKey(key + "=" + tail) == |key|
    ensures (key + "=" + tail)[..|key|] == key && (key + "=" + tail)[|key| + 1..] == tail
  {
    var s := key + "=" + tail;
    assert forall i :: 0 <= i < |key| ==> s[i] == key[i];
    assert s[|key|] == '=';
    KeyRunIs(s, |key|);
  }

  lemma ScanStep(s: string)
    requires PairKey(s) != 0
    ensures var k := PairKey(s);
            var v := s[k + 1..];
            Scan(s) == [(s[..k], v[..ValueRun(v)])] + Scan(v[ValueRun(v)..])
  {
    hide PairKey, ValueRun;
  }

  /** A printed pair is found as it was printed, and the scan goes on right after it. */
  lemma PairSurvives(key: string, value: string, rest: string)
    requires IsWord(key) && ValueRun(value + rest) == |value|
    ensures Scan(key + "=" + value + rest) == [(key, value)] + Scan(rest)
  {
    hide Scan, PairKey, ValueRun;
    assert key != "";
    var s := key + "=" + value + rest;
    assert s == key + "=" + (value + rest);
    PairKeyOf(key, value + rest);
    ScanStep(s);
    assert (value + rest)[..|value|] == value && (value + rest)[|value|..] == rest;
  }

  lemma ScanBlank(c: char, s: string)
    requires IsSpace(c)
    ensures Scan([c] + s) == Scan(s)
  {
    assert ([c] + s)[1..] == s;
  }

  lemma BlankIsSpace()
    ensures IsSpace(' ') && IsSpace('\n')
    ensures IsWord(EVT)
  {
  }

  /** Whole fields, in order */
  function Pairs(fields: seq<Field>): seq<(string, string)> {
    if fields == [] then []
    else
      var (key, value) := fields[0];
      (if value.Absent? then [] else [(StripUnderscores(key), FormatText(TextOf(value)))]) + Pairs(fields[1..])
  }

  ghost predicate WordKeys(fields: seq<Field>) {
    forall i :: 0 <= i < |fields| && !fields[i].1.Absent? ==> IsWord(StripUnderscores(fields[i].0))
  }

  lemma BodyCloses(fields: seq<Field>)
    ensures Closes(Body(fields))
  {
    if fields != [] && fields[0].1.Absent? {
      BodyCloses(fields[1..]);
      assert "" + Body(fields[1..]) == Body(fields[1..]);
    }
  }

  lemma BodyStep(fields: seq<Field>)
    requires fields != []
    ensures var f, rest := fields[0], fields[1..];
            if f.1.Absent? then Body(fields) == Body(rest) && Pairs(fields) == Pairs(rest)
            else
              var k, v := StripUnderscores(f.0), FormatText(TextOf(f.1));
              && Body(fields) == [' '] + (k + "=" + v + Body(rest))
              && Pairs(fields) == [(k, v)] + Pairs(rest)
  {
    hide FormatText, StripUnderscores, TextOf;
    var f, rest := fields[0], fields[1..];
    if f.1.Absent? {
      assert "" + Body(rest) == Body(rest);
    } else {
      Regroup(StripUnderscores(f.0), FormatText(TextOf(f.1)), Body(rest));
    }
  }

  lemma Regroup(k: string, v: string, rest: string)
    ensures (" " + k + "=" + v) + rest == [' '] + (k + "=" + v + rest)
  {
    assert " " == [' '];
  }

  lemma {:induction false} ScanBody(fields: seq<Field>)
    requires WordKeys(fields)
    ensures Scan(Body(fields)) == Pairs(fields)
  {
    if fields != [] {
      hide Body, Pairs, Scan, FormatText, StripUnderscores, ValueRun, IsWord, Closes, TextOf;
      var f, rest := fields[0], fields[1..];
      ScanBody(rest);
      BodyStep(fields);
      if !f.1.Absent? {
        var k, v := StripUnderscores(f.0), FormatText(TextOf(f.1));
        BodyCloses(rest);
        ValueSurvives(TextOf(f.1), Body(rest));
        PairSurvives(k, v, Body(rest));
        BlankIsSpace();
        ScanBlank(' ', k + "=" + v + Body(rest));
      }
    }
  }

  lemma NamePlain(name: string)
    requires IsName(name)
    ensures !Quoted(name)
  {
    var i :| 0 <= i < |name| && name[i] == '.' && IsWord(name[..i]) && IsWord(name[i + 1..]);
    forall j | 0 <= j < |name|
      ensures !NeedsQuote(name[j])
    {
      if j < i {
        assert name[j] == name[..i][j];
      } else if j > i {
        assert name[j] == name[i + 1..][j - i - 1];
      }
    }
  }

  /** The pairs found in a printed event, also when the name came with a trailing newline */
  lemma ScanEvent(name: string, fields: seq<Field>)
    requires AcceptsName(name) && WordKeys(fields)
    ensures Scan(EVT + "=" + name + Body(fields)) == [(EVT, Chomp(name))] + Pairs(fields)
  {
    hide Scan, Body, Pairs, ValueRun, IsName, Quoted, IsWord, Decode, IsSpace, WordKeys;
    BlankIsSpace();
    var n, body := Chomp(name), Body(fields);
    NamePlain(n);
    BodyCloses(fields);
    ScanBody(fields);
    if n == name {
      PlainValue(n, body);
      PairSurvives(EVT, n, body);
    } else {
      var rest := ['\n'] + body;
      PlainValue(n, rest);
      PairSurvives(EVT, n, rest);
      assert EVT + "=" + name + body == EVT + "=" + n + rest;
      ScanBlank('\n', body);
    }
  }

  // ----- the dictionary -----

  /** What should come back: the text of every field that is there */
  function Expected(fields: seq<Field>): map<string, string> {
    if fields == [] then map[]
    else
      var last := |fields| - 1;
      var (key, value) := fields[last];
      if value.Absent? then Expected(fields[..last])
      else Expected(fields[..last])[StripUnderscores(key) := TextOf(value)]
  }

  lemma {:induction false} PairsAppend(fields: seq<Field>, f: Field)
    ensures Pairs(fields + [f]) == Pairs(fields) + Pairs([f])
  {
    if fields == [] {
      assert fields + [f] == [f];
    } else {
      PairsAppend(fields[1..], f);
      assert (fields + [f])[1..] == fields[1..] + [f];
      assert (fields + [f])[0] == fields[0];
    }
  }

  lemma PairsOne(f: Field)
    ensures Pairs([f]) == if f.1.Absent? then [] else [(StripUnderscores(f.0), FormatText(TextOf(f.1)))]
  {
    assert Pairs([f][1..]) == [];
  }

  lemma DictionaryAppend(pairs: seq<(string, string)>, p: (string, string))
    ensures Dictionary(pairs + [p]) == Dictionary(pairs)[p.0 := Decode(p.1)]
  {
    assert (pairs + [p])[..|pairs|] == pairs;
  }

  lemma ExpectedStep(fields: seq<Field>)
    requires fields != []
    ensures var last := |fields| - 1;
            var f, init := fields[last], fields[..last];
            Expected(fields) ==
            if f.1.Absent? then Expected(init) else Expected(init)[StripUnderscores(f.0) := TextOf(f.1)]
  {
  }

  lemma {:induction false} DictionaryOfPairs(fields: seq<Field>, first: (string, string))
    ensures Dictionary([first] + Pairs(fields)) == map[first.0 := Decode(first.1)] + Expected(fields)
  {
    if fields == [] {
      assert [first] + Pairs(fields) == [] + [first];
      DictionaryAppend([], first);
    } else {
      hide *;
      var last := |fields| - 1;
      var f, init := fields[last], fields[..last];
      DictionaryOfPairs(init, first);
      ExpectedStep(fields);
      assert fields == init + [f];
      PairsAppend(init, f);
      PairsOne(f);
      if f.1.Absent? {
        assert Pairs(fields) == Pairs(init);
      } else {
        var p := (StripUnderscores(f.0), FormatText(TextOf(f.1)));
        DictionaryAppend([first] + Pairs(init), p);
        assert [first] + Pairs(fields) == [first] + Pairs(init) + [p];
        FormattedDecodes(TextOf(f.1));
        UpdateRight(map[first.0 := Decode(first.1)], Expected(init), p.0, TextOf(f.1));
      }
    }
  }

  lemma FormattedDecodes(s: string)
    ensures Decode(FormatText(s)) == s
  {
    assert Closes("");
    ValueSurvives(s, "");
  }

  lemma UpdateRight(m: map<string, string>, e: map<string, string>, k: string, t: string)
    ensures (m + e)[k := t] == m + e[k := t]
  {
  }

  lemma {:induction false} ExpectedKeys(fields: seq<Field>)
    requires GoodKeys(fields)
    ensures EVT !in Expected(fields)
    ensures forall i :: 0 <= i < |fields| && !fields[i].1.Absent? ==> StripUnderscores(fields[i].0) in Expected(fields)
  {
    if fields != [] {
      ExpectedKeys(fields[..|fields| - 1]);
    }
  }

  // ----- the round trip -----

  ghost predicate RoundTrips(name: string, fields: seq<Field>) {
    var message := FormatEvent(name, fields);
    message.Some? && ParseEvent(message.value) == Some((name, Expected(fields)))
  }

  lemma EventBegins(name: string, fields: seq<Field>)
    ensures EVT + "=" <= EVT + "=" + name + Body(fields)
  {
  }

  lemma ParseOfFormat(name: string, fields: seq<Field>)
    requires AcceptsName(name) && GoodKeys(fields) && WordKeys(fields)
    ensures FormatEvent(name, fields).Some?
    ensures ParseEvent(FormatEvent(name, fields).value) == Some((Chomp(name), Expected(fields)))
  {
    hide Scan, Body, Pairs, Dictionary, Expected, Decode, IsName, Quoted, GoodKeys;
    var message := EVT + "=" + name + Body(fields);
    var n := Chomp(name);
    EventBegins(name, fields);
    ScanEvent(name, fields);
    DictionaryOfPairs(fields, (EVT, n));
    NamePlain(n);
    assert Closes("");
    PlainValue(n, "");
    ExpectedKeys(fields);
    assert (map[EVT := n] + Expected(fields)) - {EVT} == Expected(fields);
  }

  lemma {:induction false} KeysHaveNoNewline(s: string)
    ensures forall i :: 0 <= i < |Scan(s)| ==> '\n' !in Scan(s)[i].0
    decreases |s|
  {
    if s != "" {
      hide ValueRun;
      if PairKey(s) == 0 {
        KeysHaveNoNewline(s[1..]);
      } else {
        var k := PairKey(s);
        var v := s[k + 1..];
        KeysHaveNoNewline(v[ValueRun(v)..]);
        assert forall i :: 0 <= i < k ==> KeyChar(s[i]);
        assert '\n' !in s[..k];
      }
    }
  }

  /** Printing and parsing give back the name and the texts of the fields, for every value, exactly when
      neither the name nor the key of a printed field carries the newline that the patterns let through. */
  lemma RoundTrip(name: string, fields: seq<Field>)
    requires AcceptsName(name) && GoodKeys(fields)
    ensures RoundTrips(name, fields) <==> IsName(name) && WordKeys(fields)
  {
    hide Expected, StripUnderscores, Body, GoodKeys, ParseEvent;
    ChompedName(name);
    if WordKeys(fields) {
      ParseOfFormat(name, fields);
    } else {
      NewlineKeyIsLost(name, fields);
    }
  }

  lemma ChompedName(name: string)
    requires AcceptsName(name)
    ensures IsName(name) <==> Chomp(name) == name
  {
    if Chomp(name) != name && IsName(name) {
      NamePlain(name);
      assert NeedsQuote(name[|name| - 1]);
    }
  }

  lemma NewlineKeyIsLost(name: string, fields: seq<Field>)
    requires AcceptsName(name) && GoodKeys(fields) && !WordKeys(fields)
    ensures !RoundTrips(name, fields)
  {
    var message := FormatEvent(name, fields).value;
    var i :| 0 <= i < |fields| && !fields[i].1.Absent? && !IsWord(StripUnderscores(fields[i].0));
    var key := StripUnderscores(fields[i].0);
    assert AcceptsKey(key);
    assert key[|key| - 1] == '\n';
    ExpectedKeys(fields);
    KeysHaveNoNewline(message);
    DictionaryKeys(Scan(message));
    EventBegins(name, fields);
    assert key !in Dictionary(Scan(message));
  }

  // ----- one line -----

  predicate OneLine(s: string) {
    forall i :: 0 <= i < |s| ==> s[i] != '\n' && s[i] != '\r'
  }

  lemma {:induction false} EscapeOneLine(s: string)
    ensures OneLine(Escape(s))
  {
    if s != "" {
      EscapeOneLine(s[1..]);
    }
  }

  lemma FormatTextOneLine(s: string)
    ensures OneLine(FormatText(s))
  {
    EscapeOneLine(s);
    if !Quoted(s) {
      assert forall i :: 0 <= i < |s| ==> !NeedsQuote(s[i]);
    }
  }

  lemma {:induction false} BodyOneLine(fields: seq<Field>)
    requires WordKeys(fields)
    ensures OneLine(Body(fields))
  {
    if fields != [] {
      hide Body, Pairs, FormatText, StripUnderscores, TextOf;
      var f, rest := fields[0], fields[1..];
      BodyOneLine(rest);
      BodyStep(fields);
      if !f.1.Absent? {
        FormatTextOneLine(TextOf(f.1));
      }
    }
  }

  /** A printed event is one line, whatever the values are. */
  lemma EventIsOneLine(name: string, fields: seq<Field>)
    requires IsName(name) && GoodKeys(fields) && WordKeys(fields) && FormatEvent(name, fields).Some?
    ensures OneLine(FormatEvent(name, fields).value)
  {
    NamePlain(name);
    assert forall i :: 0 <= i < |name| ==> !NeedsQuote(name[i]);
    BodyOneLine(fields);
    hide Body, IsName, GoodKeys, WordKeys;
  }

  // ----- the loops of the program -----

  lemma UnquoteAt(body: string, i: nat)
    requires i < |body|
    ensures Unquote(body[i..]) ==
            if body[i] == '\\' && i + 1 < |body| then [UnescapeChar(body[i + 1])] + Unquote(body[i + 2..])
            else [body[i]] + Unquote(body[i + 1..])
  {
    var t := body[i..];
    assert |t| >= 2 ==> t[2..] == body[i + 2..];
    assert t[1..] == body[i + 1..];
  }

  method UnquoteBody(body: string) returns (out: string)
    ensures out == Unquote(body)
  {
    hide Unquote, UnescapeChar;
    out := "";
    var i := 0;
    assert body[0..] == body;
    while i < |body|
      invariant 0 <= i <= |body|
      invariant out + Unquote(body[i..]) == Unquote(body)
    {
      UnquoteAt(body, i);
      if body[i] == '\\' && i + 1 < |body| {
        out := out + [UnescapeChar(body[i + 1])];
        i := i + 2;
      } else {
        out := out + [body[i]];
        i := i + 1;
      }
    }
    UnquoteNothing();
    assert body[i..] == "";
    assert out + "" == out;
  }

  method PrintEvent(name: string, fields: seq<Field>) returns (message: Option<string>)
    ensures message == FormatEvent(name, fields)
  {
    hide IsName, FormatText, StripUnderscores, AcceptsKey;
    if !AcceptsName(name) {
      return None;
    }
    var out := EVT + "=" + name;
    assert fields[0..] == fields;
    for i := 0 to |fields|
      invariant out + Body(fields[i..]) == EVT + "=" + name + Body(fields)
      invariant forall j :: 0 <= j < i ==> AcceptsKey(StripUnderscores(fields[j].0)) && StripUnderscores(fields[j].0) != EVT
    {
      var key := StripUnderscores(fields[i].0);
      if !AcceptsKey(key) || key == EVT {
        return None;
      }
      assert fields[i..][1..] == fields[i + 1..];
      BodyStep(fields[i..]);
      if !fields[i].1.Absent? {
        var v := FormatText(TextOf(fields[i].1));
        Regroup(key, v, Body(fields[i + 1..]));
        assert (out + (" " + key + "=" + v)) + Body(fields[i + 1..]) == out + Body(fields[i..]);
        out := out + (" " + key + "=" + v);
      }
    }
    assert out + "" == out;
    return Some(out);
  }

  lemma ScanSkip(s: string)
    requires s != "" && PairKey(s) == 0
    ensures Scan(s) == Scan(s[1..])
  {
    hide PairKey, ValueRun;
  }

  lemma NothingFound()
    ensures Scan("") == [] && Dictionary([]) == map[]
  {
  }

  method ReadPairs(message: string) returns (fields: map<string, string>)
    ensures fields == Dictionary(Scan(message))
  {
    hide PairKey, ValueRun, Decode, Scan, Dictionary;
    NothingFound();
    fields := map[];
    ghost var pairs: seq<(string, string)> := [];
    var rest := message;
    while rest != ""
      invariant pairs + Scan(rest) == Scan(message)
      invariant fields == Dictionary(pairs)
      decreases |rest|
    {
      var k := PairKey(rest);
      if k == 0 {
        ScanSkip(rest);
        rest := rest[1..];
      } else {
        ScanStep(rest);
        var v := rest[k + 1..];
        var p := (rest[..k], v[..ValueRun(v)]);
        DictionaryAppend(pairs, p);
        assert pairs + [p] + Scan(v[ValueRun(v)..]) == pairs + ([p] + Scan(v[ValueRun(v)..]));
        pairs := pairs + [p];
        fields := fields[p.0 := Decode(p.1)];
        rest := v[ValueRun(v)..];
      }
    }
    assert pairs + [] == pairs;
  }

  method ReadEvent(message: string) returns (event: Option<(string, map<string, string>)>)
    ensures event == ParseEvent(message)
  {
    if !(EVT + "=" <= message) {
      return None;
    }
    EvtIsFound(message);
    var fields := ReadPairs(message);
    return Some((fields[EVT], fields - {EVT}));
  }
}
