/** What printed events look like and what is found in any message, said without the printer and the scanner. */
module EventFormats {
  import opened Options
  import opened EventLogs

  // ----- keys -----

  /** stripped is the key without the underscores at its end. */
  ghost predicate Strips(key: string, stripped: string) {
    && stripped <= key && (forall i :: |stripped| <= i < |key| ==> key[i] == '_')
    && (stripped != "" ==> stripped[|stripped| - 1] != '_')
  }

  lemma {:induction false} StripExact(key: string, stripped: string)
    ensures Strips(key, stripped) <==> stripped == StripUnderscores(key)
  {
    if key != "" && key[|key| - 1] == '_' {
      var init := key[..|key| - 1];
      StripExact(init, stripped);
      assert Strips(key, stripped) <==> Strips(init, stripped);
    } else if key != "" {
      assert key[|key| - 1] != '_';
    }
  }

  predicate WordLike(c: char) {
    'a' <= c <= 'z' || '0' <= c <= '9' || c == '_'
  }

  predicate Small(c: char) {
    'a' <= c <= 'z'
  }

  /** The only character of s that is in no word is a dot at i, and a small letter begins either side of it. */
  predicate DottedAt(s: string, i: nat) {
    && 0 < i < |s| - 1 && s[i] == '.' && Small(s[0]) && Small(s[i + 1])
    && forall j :: 0 <= j < |s| ==> j == i || WordLike(s[j])
  }

  /** A name is two words with a dot between them, and a word begins with a small letter. */
  lemma NameExactly(s: string)
    ensures IsName(s) <==> exists i: nat :: DottedAt(s, i)
  {
    forall i: nat | i < |s| && s[i] == '.'
      ensures IsWord(s[..i]) && IsWord(s[i + 1..]) <==> DottedAt(s, i)
    {
      DottedWords(s, i);
    }
    hide IsWord, WordLike;
  }

  lemma DottedWords(s: string, i: nat)
    requires i < |s| && s[i] == '.'
    ensures IsWord(s[..i]) && IsWord(s[i + 1..]) <==> DottedAt(s, i)
  {
    var t := s[i + 1..];
    assert forall j :: i < j < |s| ==> s[j] == t[j - i - 1];
    assert forall j :: 0 <= j < |t| ==> t[j] == s[j + i + 1];
  }

  /** The printer's pattern for s, which matches with or without a newline at the end */
  ghost predicate NameOrLine(s: string) {
    exists w, i: nat :: DottedAt(w, i) && (s == w || s == w + "\n")
  }

  ghost predicate WordOrLine(s: string) {
    exists w :: IsWord(w) && (s == w || s == w + "\n")
  }

  ghost predicate KeyFits(key: string) {
    forall k :: Strips(key, k) ==> k != "evt" && WordOrLine(k)
  }

  /** What the printer refuses */
  lemma RefusedExactly(name: string, fields: seq<Field>)
    ensures FormatEvent(name, fields) == None <==> !NameOrLine(name) || exists i :: 0 <= i < |fields| && !KeyFits(fields[i].0)
  {
    NameAccepted(name);
    forall i | 0 <= i < |fields|
      ensures KeyFits(fields[i].0) <==> AcceptsKey(StripUnderscores(fields[i].0)) && StripUnderscores(fields[i].0) != EVT
    {
      KeyAccepted(fields[i].0);
    }
    hide Body, StripUnderscores, AcceptsKey, AcceptsName, KeyFits, NameOrLine;
  }

  lemma NameAccepted(s: string)
    ensures AcceptsName(s) <==> NameOrLine(s)
  {
    if IsName(Chomp(s)) {
      NameExactly(Chomp(s));
      assert s == Chomp(s) || s == Chomp(s) + "\n";
    }
    if NameOrLine(s) {
      var w, i: nat :| DottedAt(w, i) && (s == w || s == w + "\n");
      NameExactly(w);
      assert w[|w| - 1] != '\n';
      assert Chomp(s) == w;
    }
  }

  lemma KeyAccepted(key: string)
    ensures KeyFits(key) <==> AcceptsKey(StripUnderscores(key)) && StripUnderscores(key) != EVT
  {
    var k := StripUnderscores(key);
    StripExact(key, k);
    forall other | Strips(key, other)
      ensures other == k
    {
      StripExact(key, other);
    }
    WordAccepted(k);
    hide AcceptsKey, Strips, StripUnderscores, WordOrLine;
  }

  lemma WordAccepted(s: string)
    ensures AcceptsKey(s) <==> WordOrLine(s)
  {
    assert s == Chomp(s) || s == Chomp(s) + "\n";
    if WordOrLine(s) {
      var w :| IsWord(w) && (s == w || s == w + "\n");
      assert w[|w| - 1] != '\n';
      assert Chomp(s) == w;
    }
  }

  // ----- what is read back -----

  /** The text that a field is to come back as */
  ghost predicate Renders(v: Value, text: string) {
    match v
    case Absent => false
    case Bool(b) => text == if b then "true" else "false"
    case Text(s) => text == s
  }

  ghost predicate DistinctKeys(fields: seq<Field>) {
    forall i, j :: 0 <= i < j < |fields| ==> StripUnderscores(fields[i].0) != StripUnderscores(fields[j].0)
  }

  lemma {:induction false} ExpectedExact(fields: seq<Field>)
    requires DistinctKeys(fields)
    ensures forall i :: 0 <= i < |fields| && !fields[i].1.Absent? ==>
      StripUnderscores(fields[i].0) in Expected(fields) && Renders(fields[i].1, Expected(fields)[StripUnderscores(fields[i].0)])
    ensures forall k :: k in Expected(fields) ==> exists i :: 0 <= i < |fields| && !fields[i].1.Absent? && StripUnderscores(fields[i].0) == k
  {
    hide StripUnderscores;
    if fields != [] {
      var last := |fields| - 1;
      ExpectedExact(fields[..last]);
      forall k | k in Expected(fields)
        ensures exists i :: 0 <= i < |fields| && !fields[i].1.Absent? && StripUnderscores(fields[i].0) == k
      {
        if k in Expected(fields[..last]) {
          var i :| 0 <= i < last && !fields[..last][i].1.Absent? && StripUnderscores(fields[..last][i].0) == k;
          assert fields[i] == fields[..last][i];
        } else {
          assert StripUnderscores(fields[last].0) == k;
        }
      }
    }
  }

  /** The printed event is read back as its name and, for every field that is not None, its key without trailing underscores
      with its text; and as nothing else. */
  lemma ReadBack(name: string, fields: seq<Field>, key: string)
    requires IsName(name) && GoodKeys(fields) && WordKeys(fields) && DistinctKeys(fields)
    ensures FormatEvent(name, fields).Some? && ParseEvent(FormatEvent(name, fields).value).Some?
    ensures var (n, d) := ParseEvent(FormatEvent(name, fields).value).value;
            && n == name
            && (key in d <==> exists i :: 0 <= i < |fields| && !fields[i].1.Absent? && Strips(fields[i].0, key))
            && forall i :: 0 <= i < |fields| && !fields[i].1.Absent? && Strips(fields[i].0, key) ==> key in d && Renders(fields[i].1, d[key])
  {
    ChompedName(name);
    hide FormatEvent, ParseEvent, Strips, StripUnderscores, IsName, GoodKeys, WordKeys, AcceptsName, Expected;
    NamesAccepted(name);
    ParseOfFormat(name, fields);
    ExpectedExact(fields);
    forall i | 0 <= i < |fields|
      ensures Strips(fields[i].0, key) <==> key == StripUnderscores(fields[i].0)
    {
      StripExact(fields[i].0, key);
    }
  }

  lemma NamesAccepted(name: string)
    requires IsName(name)
    ensures AcceptsName(name) && Chomp(name) == name
  {
    ChompedName(name);
  }

  // ----- what is printed -----

  /** A value stands as it is exactly when it is not empty and has no blank, quote, equals sign or backslash. */
  lemma PlainExactly(s: string)
    ensures FormatText(s) == s <==>
      s != "" && forall i :: 0 <= i < |s| ==> !IsSpace(s[i]) && s[i] != '"' && s[i] != '=' && s[i] != '\\'
  {
    if Quoted(s) {
      LongerQuoted(s);
    }
  }

  lemma {:induction false} EscapeLonger(s: string)
    ensures |Escape(s)| >= |s|
  {
    if s != "" {
      EscapeLonger(s[1..]);
    }
  }

  lemma LongerQuoted(s: string)
    ensures |"\"" + Escape(s) + "\""| > |s|
  {
    EscapeLonger(s);
  }

  /** Otherwise it stands between quotes, with none of these characters as they are. */
  lemma QuotedText(s: string)
    requires FormatText(s) != s
    ensures var q := FormatText(s);
            && |q| >= 2 && q[0] == '"' == q[|q| - 1]
            && forall i :: 0 <= i < |q| ==> q[i] != '\n' && q[i] != '\r' && q[i] != '\t'
  {
    EscapeControls(s);
  }

  lemma {:induction false} EscapeControls(s: string)
    ensures forall i :: 0 <= i < |Escape(s)| ==> Escape(s)[i] != '\n' && Escape(s)[i] != '\r' && Escape(s)[i] != '\t'
  {
    if s != "" {
      EscapeControls(s[1..]);
    }
  }

  // ----- what is found -----

  /** A key of k characters and an equals sign at position p */
  predicate PairAt(s: string, p: nat, k: nat) {
    p + k < |s| && k > 0 && KeyStart(s[p]) && s[p + k] == '=' && forall i :: p <= i < p + k ==> KeyChar(s[i])
  }

  /** The inside of a quotation: characters other than quotes and backslashes, and pairs of a backslash and a character that is no newline */
  predicate Inside(body: string) {
    body == ""
    || (body[0] != '"' && body[0] != '\\' && Inside(body[1..]))
    || (body[0] == '\\' && |body| >= 2 && body[1] != '\n' && Inside(body[2..]))
  }

  /** The first n characters are a quotation. */
  predicate QuotationAt(s: string, n: nat) {
    2 <= n <= |s| && s[0] == '"' == s[n - 1] && Inside(s[1..n - 1])
  }

  /** The value at the head of s: a quotation if there is one, or else what is before the first blank */
  ghost predicate ValueAt(s: string, n: nat) {
    || QuotationAt(s, n)
    || ((forall m: nat :: !QuotationAt(s, m)) && n <= |s| && (forall i :: 0 <= i < n ==> !IsSpace(s[i])) && (n < |s| ==> IsSpace(s[n])))
  }

  lemma {:induction false} QuoteRunExact(s: string, n: nat)
    requires n <= |s|
    ensures n != 0 ==> (QuoteRun(s) == n <==> s[n - 1] == '"' && Inside(s[..n - 1]))
  {
    if s != "" && n != 0 {
      if s[0] == '"' {
        assert n > 1 ==> s[..n - 1][0] == '"';
      } else if s[0] == '\\' {
        if n >= 3 {
          QuoteRunExact(s[2..], n - 2);
          assert s[..n - 1][2..] == s[2..][..n - 3];
        }
      } else {
        if n >= 2 {
          QuoteRunExact(s[1..], n - 1);
          assert s[..n - 1][1..] == s[1..][..n - 2];
        }
      }
    }
  }

  /** The value that the scanner takes is the only one there. */
  lemma ValueExact(s: string, n: nat)
    ensures ValueAt(s, n) <==> n == ValueRun(s)
  {
    forall m: nat
      ensures QuotationAt(s, m) <==> s != "" && s[0] == '"' && QuoteRun(s[1..]) != 0 && m == 1 + QuoteRun(s[1..])
    {
      QuotationExact(s, m);
    }
    hide QuotationAt, QuoteRun;
    if forall m: nat :: !QuotationAt(s, m) {
      WordExact(s, n);
      if s != "" && s[0] == '"' {
        assert !QuotationAt(s, 1 + QuoteRun(s[1..]));
      }
      assert ValueRun(s) == WordRun(s);
    } else {
      assert ValueRun(s) == 1 + QuoteRun(s[1..]);
    }
  }

  lemma WordExact(s: string, n: nat)
    ensures n <= |s| && (forall i :: 0 <= i < n ==> !IsSpace(s[i])) && (n < |s| ==> IsSpace(s[n])) <==> n == WordRun(s)
  {
    hide IsSpace;
    var w := WordRun(s);
    if n < w {
      assert !IsSpace(s[n]);
    } else if w < n <= |s| {
      assert IsSpace(s[w]);
    }
  }

  lemma QuotationExact(s: string, m: nat)
    ensures QuotationAt(s, m) <==> s != "" && s[0] == '"' && QuoteRun(s[1..]) != 0 && m == 1 + QuoteRun(s[1..])
  {
    if s != "" && 2 <= m <= |s| {
      QuoteRunExact(s[1..], m - 1);
      assert s[1..][..m - 2] == s[1..m - 1];
    }
  }

  lemma PairExact(s: string, k: nat)
    ensures PairAt(s, 0, k) <==> k != 0 && k == PairKey(s)
  {
    if PairAt(s, 0, k) {
      assert !KeyChar('=');
      assert KeyRun(s) == k;
    }
  }

  /** No pair begins anywhere in the message: nothing is found. */
  lemma {:induction false} ScanNothing(s: string)
    requires forall p: nat, k: nat :: !PairAt(s, p, k)
    ensures Scan(s) == []
    decreases |s|
  {
    if s != "" {
      PairExact(s, PairKey(s));
      forall p: nat, k: nat
        ensures !PairAt(s[1..], p, k)
      {
        assert !PairAt(s, p + 1, k);
        ShiftedPair(s, p, k);
      }
      ScanNothing(s[1..]);
    }
  }

  lemma ShiftedPair(s: string, p: nat, k: nat)
    requires s != ""
    ensures PairAt(s[1..], p, k) <==> PairAt(s, p + 1, k)
  {
    if p + 1 + k < |s| {
      assert forall i :: p <= i < p + k ==> s[1..][i] == s[i + 1];
      assert forall i :: p + 1 <= i < p + 1 + k ==> s[i] == s[1..][i - 1];
    }
  }

  /** Otherwise the first pair is found, with its value, and the search goes on behind it. */
  lemma {:induction false} ScanFirst(s: string, p: nat, k: nat, n: nat)
    requires p + k < |s| && PairAt(s, p, k) && (forall q: nat, l: nat :: q < p ==> !PairAt(s, q, l)) && ValueAt(s[p + k + 1..], n) && n <= |s| - p - k - 1
    ensures Scan(s) == [(s[p..p + k], s[p + k + 1..][..n])] + Scan(s[p + k + 1..][n..])
    decreases p
  {
    hide *;
    if p == 0 {
      ScanTakes(s, k, n);
    } else {
      NoPairFirst(s);
      forall q: nat, l: nat | q < p - 1
        ensures !PairAt(s[1..], q, l)
      {
        ShiftedPair(s, q, l);
        assert !PairAt(s, q + 1, l);
      }
      ShiftedPair(s, p - 1, k);
      ShiftedParts(s, p, k);
      ScanFirst(s[1..], p - 1, k, n);
    }
  }

  lemma ScanUnfolds(s: string)
    requires PairKey(s) != 0
    ensures var k := PairKey(s);
            var v := s[k + 1..];
            Scan(s) == [(s[..k], v[..ValueRun(v)])] + Scan(v[ValueRun(v)..])
  {
    hide PairKey, ValueRun;
  }

  lemma ScanTakes(s: string, k: nat, n: nat)
    requires k < |s| && PairAt(s, 0, k) && ValueAt(s[k + 1..], n) && n <= |s| - k - 1
    ensures Scan(s) == [(s[..k], s[k + 1..][..n])] + Scan(s[k + 1..][n..])
  {
    KeyNotEmpty(s, k);
    hide *;
    PairExact(s, k);
    ValueExact(s[k + 1..], n);
    ScanUnfolds(s);
  }

  lemma KeyNotEmpty(s: string, k: nat)
    requires PairAt(s, 0, k)
    ensures k != 0
  {
  }

  lemma NoPairFirst(s: string)
    requires s != "" && forall l: nat :: !PairAt(s, 0, l)
    ensures Scan(s) == Scan(s[1..])
  {
    PairExact(s, PairKey(s));
    hide PairAt, PairKey;
  }

  lemma ShiftedParts(s: string, p: nat, k: nat)
    requires 0 < p && p + k < |s|
    ensures s[1..][p - 1 + k + 1..] == s[p + k + 1..] && s[1..][p - 1..p - 1 + k] == s[p..p + k]
  {
  }

  // ----- examples -----

  lemma EscapeStep(s: string, t: string)
    requires s != ""
    ensures Escape(s) == EscapeChar(s[0]) + Escape(s[1..])
    ensures Escape(s + t) == EscapeChar(s[0]) + Escape(s[1..] + t)
  {
    assert (s + t)[1..] == s[1..] + t;
    hide EscapeChar;
  }

  lemma Grouped(a: string, b: string, c: string)
    ensures a + (b + c) == a + b + c
  {
  }

  lemma {:induction false} EscapeTwo(s: string, t: string)
    ensures Escape(s + t) == Escape(s) + Escape(t)
  {
    if s == "" {
      assert s + t == t;
    } else {
      EscapeTwo(s[1..], t);
      EscapeStep(s, t);
      Grouped(EscapeChar(s[0]), Escape(s[1..]), Escape(t));
      hide Escape, EscapeChar;
    }
  }

  lemma EscapeOne(c: char)
    ensures Escape([c]) == EscapeChar(c)
  {
    assert Escape([c][1..]) == "";
  }

  /** Each character that is escaped, in its place */
  lemma EscapedAt(before: string, c: char, after: string)
    ensures Escape(before + [c] + after) == Escape(before) +
      (if c == '\n' then "\\n" else if c == '\r' then "\\r" else if c == '\t' then "\\t"
       else if c == '"' || c == '\\' then "\\" + [c] else [c]) + Escape(after)
  {
    EscapeTwo(before + [c], after);
    EscapeTwo(before, [c]);
    EscapeOne(c);
    EscapedChar(c);
    hide Escape, EscapeChar;
  }

  lemma EscapedChar(c: char)
    ensures EscapeChar(c) == if c == '\n' then "\\n" else if c == '\r' then "\\r" else if c == '\t' then "\\t"
                             else if c == '"' || c == '\\' then "\\" + [c] else [c]
  {
  }

  /** A backslash stands for the control character that its letter names, or for the character behind it; the last one, and everything else, for itself. */
  lemma UnquoteBackslash(c: char, rest: string)
    ensures Unquote("\\" + [c] + rest) == (if c == 'n' then "\n" else if c == 'r' then "\r" else if c == 't' then "\t" else [c]) + Unquote(rest)
    ensures Unquote("\\") == "\\"
    ensures c != '\\' ==> Unquote([c] + rest) == [c] + Unquote(rest)
  {
    assert ([c] + rest)[1..] == rest;
    var s := "\\" + [c] + rest;
    assert s[2..] == rest && s[1] == c;
    assert Unquote("\\"[1..]) == "";
  }

  /** What is printed for one more field */
  function Printed(f: Field): string {
    if f.1.Absent? then "" else " " + StripUnderscores(f.0) + "=" + FormatText(TextOf(f.1))
  }

  lemma {:induction false} BodyGrows(fields: seq<Field>, f: Field)
    ensures Body(fields + [f]) == Body(fields) + Printed(f)
  {
    if fields == [] {
      assert ([] + [f])[1..] == [] && ([] + [f])[0] == f;
      assert Printed(f) + "" == Printed(f);
    } else {
      BodyGrows(fields[1..], f);
      assert (fields + [f])[1..] == fields[1..] + [f] && (fields + [f])[0] == fields[0];
      hide StripUnderscores, FormatText;
      assert Body(fields) == Printed(fields[0]) + Body(fields[1..]);
      assert Body(fields + [f]) == Printed(fields[0]) + Body(fields[1..] + [f]);
      Grouped(Printed(fields[0]), Body(fields[1..]), Printed(f));
    }
  }

  /** An event without fields is its name; each field that is not None adds a blank, its key and its value. */
  lemma EventGrows(name: string, fields: seq<Field>, f: Field, key: string, text: string)
    requires IsName(name) && GoodKeys(fields + [f]) && Strips(f.0, key) && (f.1.Absent? || Renders(f.1, text))
    ensures FormatEvent(name, []) == Some("evt=" + name)
    ensures FormatEvent(name, fields).Some?
    ensures FormatEvent(name, fields + [f]) ==
      Some(FormatEvent(name, fields).value + if f.1.Absent? then "" else " " + key + "=" + FormatText(text))
  {
    hide IsName, AcceptsName, GoodKeys, Strips, Body, Printed, Renders;
    NamesAccepted(name);
    BodyGrows(fields, f);
    KeysOfFewer(fields, f);
    NoBody();
    PrintedIs(f, key, text);
    Grouped(EVT + "=" + name, Body(fields), Printed(f));
    assert EVT + "=" + name + "" == "evt=" + name;
  }

  lemma PrintedIs(f: Field, key: string, text: string)
    requires Strips(f.0, key) && (f.1.Absent? || Renders(f.1, text))
    ensures Printed(f) == if f.1.Absent? then "" else " " + key + "=" + FormatText(text)
  {
    StripExact(f.0, key);
    hide Strips, StripUnderscores, FormatText;
  }

  lemma KeysOfFewer(fields: seq<Field>, f: Field)
    requires GoodKeys(fields + [f])
    ensures GoodKeys(fields) && GoodKeys([])
  {
    assert forall i :: 0 <= i < |fields| ==> (fields + [f])[i] == fields[i];
  }

  lemma NoBody()
    ensures Body([]) == ""
  {
  }
}
