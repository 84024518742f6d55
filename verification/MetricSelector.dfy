/**
 Prometheus selectors: printing a series, matching a selector against an exposition line, and looking a
 selector up in a whole scrape.

 The `f64` parser is a parameter.
 */
module MetricSelector {
  import opened Options
  import opened Strings

  type Label = (string, string)

  /** Values are only passed through. */
  type Number = real

  /** A selector, and also a series as it is printed. */
  datatype Metric = Metric(name: string, labels: seq<Label>)

  // ---------------------------------------------------------------- trimming

  predicate IsAsciiSpace(c: char) {
    c as int in {9, 10, 12, 13, 32}
  }

  /** Unicode's White_Space property. */
  predicate IsSpace(c: char) {
    var n := c as int;
    9 <= n <= 13 || 0x2000 <= n <= 0x200A || n in {0x20, 0x85, 0xA0, 0x1680, 0x2028, 0x2029, 0x202F, 0x205F, 0x3000}
  }

  /** What a trim removes. */
  datatype Edge = White | Quotes {
    predicate Takes(c: char) {
      if this == White then IsSpace(c) else c == '"'
    }
  }

  function TrimStart(s: string, e: Edge): string {
    if s != [] && e.Takes(s[0]) then TrimStart(s[1..], e) else s
  }

  function TrimEnd(s: string, e: Edge): string {
    if s != [] && e.Takes(s[|s| - 1]) then TrimEnd(s[..|s| - 1], e) else s
  }

  function Trim(s: string, e: Edge): string {
    TrimEnd(TrimStart(s, e), e)
  }

  /** Neither end would be trimmed. */
  predicate Tight(s: string, e: Edge) {
    s == [] || (!e.Takes(s[0]) && !e.Takes(s[|s| - 1]))
  }

  /** The first piece of `split_whitespace`. */
  function FirstWord(s: string): Option<string> {
    var t := TrimStart(s, White);
    if t == [] then None else Some(t[..WordLength(t)])
  }

  function WordLength(s: string): (n: nat)
    ensures n <= |s|
  {
    if s == [] || IsSpace(s[0]) then 0 else 1 + WordLength(s[1..])
  }

  predicate IsWord(s: string) {
    s != [] && forall i :: 0 <= i < |s| ==> !IsSpace(s[i])
  }

  /** What may follow a word: nothing, or white space and anything (a timestamp, say). */
  predicate Detached(t: string) {
    t == [] || IsSpace(t[0])
  }

  lemma {:induction false} WordEnds(word: string, t: string)
    requires (forall i :: 0 <= i < |word| ==> !IsSpace(word[i])) && Detached(t)
    ensures WordLength(word + t) == |word|
  {
    if word != [] {
      assert (word + t)[1..] == word[1..] + t;
      WordEnds(word[1..], t);
    } else {
      assert word + t == t;
    }
  }

  lemma FirstWordIs(word: string, t: string)
    requires IsWord(word) && Detached(t)
    ensures FirstWord([' '] + word + t) == Some(word)
  {
    var s, w := [' '] + word + t, word + t;
    assert s[0] == ' ' && s[1..] == w;
    assert w[0] == word[0] && w[..|word|] == word;
    assert TrimStart(w, White) == w;
    assert TrimStart(s, White) == w;
    WordEnds(word, t);
  }

  // ---------------------------------------------------------------- printing

  function PrintLabel(l: Label): string {
    l.0 + ['='] + (['"'] + l.1 + ['"'])
  }

  /** The labels with commas between them. */
  function PrintLabels(labels: seq<Label>): string {
    if labels == [] then []
    else if |labels| == 1 then PrintLabel(labels[0])
    else PrintLabel(labels[0]) + [','] + PrintLabels(labels[1..])
  }

  function Print(m: Metric): string {
    m.name + if m.labels == [] then [] else ['{'] + PrintLabels(m.labels) + ['}']
  }

  lemma {:induction false} PrintLabelsAppend(labels: seq<Label>, l: Label)
    ensures PrintLabels(labels + [l]) == PrintLabels(labels) + (if labels == [] then [] else [',']) + PrintLabel(l)
  {
    if |labels| > 1 {
      PrintLabelsAppend(labels[1..], l);
      assert (labels + [l])[1..] == labels[1..] + [l];
    } else if |labels| == 1 {
      assert (labels + [l])[1..] == [l];
    }
  }

  /** `Display for Metric`. */
  method Display(m: Metric) returns (f: string)
    ensures f == Print(m)
  {
    f := m.name;
    if m.labels != [] {
      f := f + "{";
      for i := 0 to |m.labels|
        invariant f == m.name + ['{'] + PrintLabels(m.labels[..i])
      {
        PrintLabelsAppend(m.labels[..i], m.labels[i]);
        assert m.labels[..i + 1] == m.labels[..i] + [m.labels[i]];
        if i > 0 {
          f := f + ",";
        }
        var (k, v) := m.labels[i];
        assert k + "=\"" + v + "\"" == PrintLabel(m.labels[i]);
        f := f + (k + "=\"" + v + "\"");
      }
      f := f + "}";
      assert m.labels[..|m.labels|] == m.labels;
    }
  }

  // ---------------------------------------------------------------- parsing a label block

  /** One `key="value"` pair, if it has an equals sign. */
  function ParsePair(pair: string): Option<Label> {
    var p := Trim(pair, White);
    var i := IndexOf(p, '=');
    if i == |p| then None
    else Some((Trim(p[..i], White), Trim(Trim(p[i + 1..], White), Quotes)))
  }

  /** The pairs as a map, a later one winning. */
  function ParsePairs(pairs: seq<string>): map<string, string> {
    if pairs == [] then map[]
    else
      match ParsePair(pairs[0])
      case None => ParsePairs(pairs[1..])
      case Some((k, v)) => map[k := v] + ParsePairs(pairs[1..])
  }

  function ParseBlock(block: string): map<string, string> {
    var b := Trim(block, White);
    if b == [] then map[] else ParsePairs(Split(b, ','))
  }

  /** `parse_label_block`. */
  method ParseLabelBlock(block: string) returns (out: map<string, string>)
    ensures out == ParseBlock(block)
  {
    out := map[];
    var b := Trim(block, White);
    if b == [] {
      return;
    }
    var pairs := Split(b, ',');
    for i := 0 to |pairs|
      invariant out + ParsePairs(pairs[i..]) == ParsePairs(pairs)
    {
      assert pairs[i..][1..] == pairs[i + 1..];
      var pair := Trim(pairs[i], White);
      var eq := IndexOf(pair, '=');
      if eq == |pair| {
        continue;
      }
      var k, v := Trim(pair[..eq], White), Trim(Trim(pair[eq + 1..], White), Quotes);
      InsertThenRest(out, k, v, ParsePairs(pairs[i + 1..]));
      out := out[k := v];
    }
  }

  lemma InsertThenRest(m: map<string, string>, k: string, v: string, rest: map<string, string>)
    ensures m[k := v] + rest == m + (map[k := v] + rest)
  {
  }

  // ---------------------------------------------------------------- matching

  /** Every wanted label is there with its value. */
  ghost predicate Carries(have: map<string, string>, wanted: seq<Label>) {
    forall i :: 0 <= i < |wanted| ==> wanted[i].0 in have && have[wanted[i].0] == wanted[i].1
  }

  function Value(parse: string -> Option<Number>, rest: string): Option<Number> {
    match FirstWord(rest)
    case None => None
    case Some(word) => parse(word)
  }

  /** The labels and the value part that follow a name, if the name ends there. */
  function Parts(rest: string): Option<(map<string, string>, string)> {
    if rest != [] && rest[0] == '{' then
      var inner := rest[1..];
      var end := IndexOf(inner, '}');
      if end == |inner| then None else Some((ParseBlock(inner[..end]), inner[end + 1..]))
    else if rest == [] || IsAsciiSpace(rest[0]) then Some((map[], rest))
    else None
  }

  ghost function Judge(parse: string -> Option<Number>, wanted: seq<Label>, rest: string): Option<Number> {
    match Parts(rest)
    case None => None
    case Some((have, value)) => if Carries(have, wanted) then Value(parse, value) else None
  }

  /** What a selector makes of a line. */
  ghost function Matched(parse: string -> Option<Number>, s: Metric, line: string): Option<Number> {
    if s.name <= line then Judge(parse, s.labels, line[|s.name|..]) else None
  }

  /** `Metric::match_line`. */
  method MatchLine(parse: string -> Option<Number>, s: Metric, line: string) returns (r: Option<Number>)
    ensures r == Matched(parse, s, line)
  {
    if !(s.name <= line) {
      return None;
    }
    var rest := line[|s.name|..];
    var isLabeled := rest != [] && rest[0] == '{';
    var isBare := rest == [] || IsAsciiSpace(rest[0]);
    if !isLabeled && !isBare {
      return None;
    }
    var lineLabels: map<string, string>, valuePart;
    if isLabeled {
      var inner := rest[1..];
      var end := IndexOf(inner, '}');
      if end == |inner| {
        return None;
      }
      lineLabels := ParseLabelBlock(inner[..end]);
      valuePart := inner[end + 1..];
    } else {
      lineLabels, valuePart := map[], rest;
    }
    assert Parts(rest) == Some((lineLabels, valuePart));
    for i := 0 to |s.labels|
      invariant forall j :: 0 <= j < i ==> s.labels[j].0 in lineLabels && lineLabels[s.labels[j].0] == s.labels[j].1
    {
      if !(s.labels[i].0 in lineLabels && lineLabels[s.labels[i].0] == s.labels[i].1) {
        return None;
      }
    }
    r := Value(parse, valuePart);
  }

  // ---------------------------------------------------------------- printed lines read back

  predicate CleanName(name: string) {
    forall i :: 0 <= i < |name| ==> name[i] != '{' && !IsAsciiSpace(name[i])
  }

  /** Keys avoid the delimiters and outer white space; values avoid `,` and `}` and outer quotes. */
  predicate CleanLabel(l: Label) {
    && ',' !in l.0 && '}' !in l.0 && '=' !in l.0 && Tight(l.0, White)
    && ',' !in l.1 && '}' !in l.1 && Tight(l.1, Quotes)
  }

  predicate CleanLabels(labels: seq<Label>) {
    forall i :: 0 <= i < |labels| ==> CleanLabel(labels[i])
  }

  predicate CleanMetric(m: Metric) {
    CleanName(m.name) && CleanLabels(m.labels)
  }

  /** The labels as a map, a later one winning. */
  function LabelMap(labels: seq<Label>): map<string, string> {
    if labels == [] then map[] else map[labels[0].0 := labels[0].1] + LabelMap(labels[1..])
  }

  lemma QuotesFall(v: string)
    requires Tight(v, Quotes)
    ensures Trim(['"'] + v + ['"'], Quotes) == v
  {
    var s, w := ['"'] + v + ['"'], v + ['"'];
    assert s[0] == '"' && s[1..] == w;
    assert TrimStart(s, Quotes) == TrimStart(w, Quotes);
    assert w[..|v|] == v;
    if v == [] {
      assert w == ['"'] && TrimStart(w, Quotes) == [];
    } else {
      assert w[0] == v[0];
      assert TrimStart(w, Quotes) == w;
      assert TrimEnd(w, Quotes) == TrimEnd(v, Quotes) == v;
    }
  }

  lemma PrintedLabelIsTight(l: Label)
    requires CleanLabel(l)
    ensures PrintLabel(l) != [] && Tight(PrintLabel(l), White)
  {
    var s := PrintLabel(l);
    assert s[|s| - 1] == '"';
    assert s[0] == if l.0 == [] then '=' else l.0[0];
  }

  lemma PairReads(l: Label)
    requires CleanLabel(l)
    ensures ParsePair(PrintLabel(l)) == Some(l)
  {
    PrintedLabelIsTight(l);
    var quoted := ['"'] + l.1 + ['"'];
    IndexOfFirst(l.0, '=', quoted);
    assert PrintLabel(l)[..|l.0|] == l.0 && PrintLabel(l)[|l.0| + 1..] == quoted;
    QuotesFall(l.1);
  }

  lemma PrintedLabelIsPlain(l: Label)
    requires CleanLabel(l)
    ensures ',' !in PrintLabel(l) && '}' !in PrintLabel(l)
  {
  }

  lemma {:induction false} BlockShape(labels: seq<Label>)
    requires CleanLabels(labels) && labels != []
    ensures '}' !in PrintLabels(labels)
    ensures PrintLabels(labels) != [] && Tight(PrintLabels(labels), White)
  {
    PrintedLabelIsTight(labels[0]);
    PrintedLabelIsPlain(labels[0]);
    if |labels| > 1 {
      BlockShape(labels[1..]);
      var x, y := PrintLabel(labels[0]), PrintLabels(labels[1..]);
      var s := x + [','] + y;
      assert s[0] == x[0] && s[|s| - 1] == y[|y| - 1];
    }
  }

  lemma {:induction false} PairsRead(labels: seq<Label>)
    requires CleanLabels(labels) && labels != []
    ensures ParsePairs(Split(PrintLabels(labels), ',')) == LabelMap(labels)
  {
    var x := PrintLabel(labels[0]);
    PrintedLabelIsPlain(labels[0]);
    PairReads(labels[0]);
    if |labels| == 1 {
      SplitNone(x, ',');
      assert [x][1..] == [] && labels[1..] == [];
    } else {
      var rest := Split(PrintLabels(labels[1..]), ',');
      PairsRead(labels[1..]);
      SplitFirst(x, ',', PrintLabels(labels[1..]));
      assert ([x] + rest)[1..] == rest;
    }
  }

  /** A printed block reads back as the labels it was printed from. */
  lemma BlockRoundTrip(labels: seq<Label>)
    requires CleanLabels(labels)
    ensures ParseBlock(PrintLabels(labels)) == LabelMap(labels)
  {
    if labels != [] {
      BlockShape(labels);
      PairsRead(labels);
    }
  }

  // ---------------------------------------------------------------- blocks with white space around the pieces

  predicate Blank(s: string) {
    forall i :: 0 <= i < |s| ==> IsSpace(s[i])
  }

  lemma {:induction false} TrimStartBlank(a: string, s: string)
    requires Blank(a) && (s == [] || !IsSpace(s[0]))
    ensures TrimStart(a + s, White) == s
  {
    if a == [] {
      assert a + s == s;
    } else {
      assert (a + s)[1..] == a[1..] + s;
      TrimStartBlank(a[1..], s);
    }
  }

  lemma {:induction false} TrimEndBlank(s: string, d: string)
    requires Blank(d) && (s == [] || !IsSpace(s[|s| - 1]))
    ensures TrimEnd(s + d, White) == s
  {
    if d == [] {
      assert s + d == s;
    } else {
      var n := |d| - 1;
      assert (s + d)[..|s + d| - 1] == s + d[..n];
      TrimEndBlank(s, d[..n]);
    }
  }

  lemma TrimBlank(a: string, s: string, d: string)
    requires Blank(a) && Blank(d) && Tight(s, White)
    ensures Trim(a + (s + d), White) == s
  {
    if s == [] {
      assert a + (s + d) == (a + d) + [];
      TrimStartBlank(a + d, []);
    } else {
      assert (s + d)[0] == s[0];
      TrimStartBlank(a, s + d);
      TrimEndBlank(s, d);
    }
  }

  /** A label with white space around it and around its equals sign. */
  datatype Spaced = Spaced(before: string, pair: Label, left: string, right: string, after: string)

  predicate CleanSpaced(x: Spaced) {
    && CleanLabel(x.pair) && Blank(x.before) && Blank(x.left) && Blank(x.right) && Blank(x.after)
    && (x.pair.0 == [] ==> x.left == [])
  }

  /** The label without the white space outside it. */
  function Core(x: Spaced): string {
    x.pair.0 + x.left + ['='] + (x.right + (['"'] + x.pair.1 + ['"']))
  }

  lemma CoreIsTight(x: Spaced)
    requires CleanSpaced(x)
    ensures Core(x) != [] && Tight(Core(x), White) && ',' !in Core(x)
  {
    var s := Core(x);
    assert s[|s| - 1] == '"';
    assert s[0] == if x.pair.0 == [] then '=' else x.pair.0[0];
    NoComma(x.left);
    NoComma(x.right);
  }

  lemma NoComma(s: string)
    requires Blank(s)
    ensures ',' !in s && '=' !in s
  {
  }

  lemma SpacedReads(pre: string, x: Spaced, post: string)
    requires CleanSpaced(x) && Blank(pre) && Blank(post)
    ensures ParsePair(pre + (Core(x) + post)) == Some(x.pair)
  {
    CoreIsTight(x);
    TrimBlank(pre, Core(x), post);
    CoreReads(x);
  }

  lemma CoreReads(x: Spaced)
    requires CleanSpaced(x) && Tight(Core(x), White)
    ensures var i := IndexOf(Core(x), '=');
            && i < |Core(x)| && Trim(Core(x)[..i], White) == x.pair.0
            && Trim(Trim(Core(x)[i + 1..], White), Quotes) == x.pair.1
  {
    var key, quoted := x.pair.0 + x.left, ['"'] + x.pair.1 + ['"'];
    NoComma(x.left);
    IndexOfFirst(key, '=', x.right + quoted);
    assert Core(x)[..|key|] == key && Core(x)[|key| + 1..] == x.right + quoted;
    KeyReads(x.pair.0, x.left);
    ValueReads(x.right, x.pair.1);
  }

  lemma KeyReads(key: string, left: string)
    requires Tight(key, White) && Blank(left)
    ensures Trim(key + left, White) == key
  {
    TrimBlank([], key, left);
    assert [] + (key + left) == key + left;
  }

  lemma ValueReads(right: string, value: string)
    requires Tight(value, Quotes) && Blank(right)
    ensures Trim(Trim(right + (['"'] + value + ['"']), White), Quotes) == value
  {
    var quoted := ['"'] + value + ['"'];
    TrimBlank(right, quoted, []);
    assert quoted + [] == quoted;
    QuotesFall(value);
  }

  /** The labels with commas between them, without the white space at the two ends. */
  function PrintSpaced(xs: seq<Spaced>): string {
    if xs == [] then []
    else if |xs| == 1 then Core(xs[0])
    else Core(xs[0]) + xs[0].after + [','] + (xs[1].before + PrintSpaced(xs[1..]))
  }

  function LabelsOf(xs: seq<Spaced>): seq<Label> {
    seq(|xs|, i requires 0 <= i < |xs| => xs[i].pair)
  }

  lemma {:induction false} SpacedIsTight(xs: seq<Spaced>)
    requires (forall i :: 0 <= i < |xs| ==> CleanSpaced(xs[i])) && xs != []
    ensures PrintSpaced(xs) != [] && Tight(PrintSpaced(xs), White)
  {
    CoreIsTight(xs[0]);
    if |xs| > 1 {
      SpacedIsTight(xs[1..]);
      var s, y := PrintSpaced(xs), PrintSpaced(xs[1..]);
      assert s[0] == Core(xs[0])[0] && s[|s| - 1] == y[|y| - 1];
    }
  }

  lemma {:induction false} SpacedPairsRead(pre: string, xs: seq<Spaced>)
    requires (forall i :: 0 <= i < |xs| ==> CleanSpaced(xs[i])) && xs != [] && Blank(pre)
    ensures ParsePairs(Split(pre + PrintSpaced(xs), ',')) == LabelMap(LabelsOf(xs))
    decreases |xs|
  {
    var x := xs[0];
    CoreIsTight(x);
    NoComma(pre);
    NoComma(x.after);
    FirstLabel(xs);
    if |xs| == 1 {
      SpacedReads(pre, x, []);
      assert Core(x) + [] == Core(x);
      SplitNone(pre + Core(x), ',');
      OnePair(pre + Core(x), [], x.pair);
    } else {
      var first, rest := pre + (Core(x) + x.after), xs[1].before + PrintSpaced(xs[1..]);
      SpacedPairsRead(xs[1].before, xs[1..]);
      SpacedReads(pre, x, x.after);
      Regroup(pre, Core(x), x.after, rest);
      SplitFirst(first, ',', rest);
      OnePair(first, Split(rest, ','), x.pair);
    }
  }

  lemma FirstLabel(xs: seq<Spaced>)
    requires xs != []
    ensures LabelMap(LabelsOf(xs)) == map[xs[0].pair.0 := xs[0].pair.1] + LabelMap(LabelsOf(xs[1..]))
  {
    assert LabelsOf(xs)[1..] == LabelsOf(xs[1..]);
  }

  lemma Regroup(a: string, b: string, c: string, d: string)
    ensures a + (b + c + [','] + d) == (a + (b + c)) + [','] + d
  {
  }

  lemma OnePair(first: string, rest: seq<string>, l: Label)
    requires ParsePair(first) == Some(l)
    ensures ParsePairs([first] + rest) == map[l.0 := l.1] + ParsePairs(rest)
  {
    assert ([first] + rest)[1..] == rest;
  }

  lemma {:induction false} TrimStartAddsNothing(s: string, c: char)
    requires c !in s
    ensures c !in TrimStart(s, White)
  {
    if s != [] && IsSpace(s[0]) {
      TrimStartAddsNothing(s[1..], c);
    }
  }

  lemma {:induction false} TrimEndAddsNothing(s: string, c: char)
    requires c !in s
    ensures c !in TrimEnd(s, White)
  {
    if s != [] && IsSpace(s[|s| - 1]) {
      TrimEndAddsNothing(s[..|s| - 1], c);
    }
  }

  /** A piece without an equals sign, an empty one between two commas included, is passed over. */
  lemma NoPairIsSkipped(first: string, rest: string)
    requires '=' !in first && ',' !in first
    ensures ParsePairs(Split(first + [','] + rest, ',')) == ParsePairs(Split(rest, ','))
  {
    SplitFirst(first, ',', rest);
    TrimStartAddsNothing(first, '=');
    TrimEndAddsNothing(TrimStart(first, White), '=');
    IndexOfNone(Trim(first, White), '=');
    var rest' := Split(rest, ',');
    assert ([first] + rest')[1..] == rest';
  }

  /** A block with white space around labels and equals signs reads the same. */
  lemma SpacedBlockReads(pre: string, xs: seq<Spaced>, post: string)
    requires (forall i :: 0 <= i < |xs| ==> CleanSpaced(xs[i])) && Blank(pre) && Blank(post)
    ensures ParseBlock(pre + (PrintSpaced(xs) + post)) == LabelMap(LabelsOf(xs))
  {
    if xs != [] {
      SpacedIsTight(xs);
      SpacedPairsRead([], xs);
      assert [] + PrintSpaced(xs) == PrintSpaced(xs);
    }
    TrimBlank(pre, PrintSpaced(xs), post);
  }

  /** A complete exposition line: the series, its value, and whatever white space sets off. */
  function Line(m: Metric, token: string, t: string): string {
    Print(m) + [' '] + token + t
  }

  /** Everything after the name on a line. */
  function AfterName(labels: seq<Label>, value: string): string {
    if labels == [] then value else ['{'] + (PrintLabels(labels) + ['}'] + value)
  }

  lemma LineShape(m: Metric, token: string, t: string)
    ensures Line(m, token, t) == m.name + AfterName(m.labels, [' '] + token + t)
  {
  }

  lemma PartsOfPrinted(labels: seq<Label>, value: string)
    requires CleanLabels(labels) && value != [] && value[0] == ' '
    ensures Parts(AfterName(labels, value)) == Some((LabelMap(labels), value))
  {
    if labels != [] {
      var block := PrintLabels(labels);
      var inner := block + ['}'] + value;
      assert (['{'] + inner)[1..] == inner;
      BlockShape(labels);
      IndexOfFirst(block, '}', value);
      assert inner[..|block|] == block && inner[|block| + 1..] == value;
      BlockRoundTrip(labels);
    }
  }

  /** A name is only ever found as a whole token. */
  lemma OtherNamesFail(parse: string -> Option<Number>, s: Metric, name: string, after: string)
    requires CleanName(s.name) && CleanName(name) && s.name != name
    requires after != [] && (after[0] == '{' || IsAsciiSpace(after[0]))
    ensures Matched(parse, s, name + after) == None
  {
    var line := name + after;
    if s.name <= line {
      assert forall i :: 0 <= i < |s.name| ==> s.name[i] == line[i];
      assert line[|name|] == after[0];
      assert |s.name| <= |name|;
      assert s.name == name[..|s.name|];
      assert |s.name| < |name|;
      assert line[|s.name|..][0] == name[|s.name|];
    }
  }

  /** Matching a printed line is exactly: the same name, and every label of the selector among the line's. */
  lemma MatchesExactly(parse: string -> Option<Number>, s: Metric, m: Metric, token: string, t: string)
    requires CleanName(s.name) && CleanMetric(m) && IsWord(token) && Detached(t)
    ensures Matched(parse, s, Line(m, token, t))
         == if s.name == m.name && Carries(LabelMap(m.labels), s.labels) then parse(token) else None
  {
    var value := [' '] + token + t;
    var after := AfterName(m.labels, value);
    LineShape(m, token, t);
    if s.name == m.name {
      assert (m.name + after)[|m.name|..] == after;
      PartsOfPrinted(m.labels, value);
      FirstWordIs(token, t);
    } else {
      OtherNamesFail(parse, s, m.name, after);
    }
  }

  predicate DistinctKeys(labels: seq<Label>) {
    forall i, j :: 0 <= i < j < |labels| ==> labels[i].0 != labels[j].0
  }

  lemma {:induction false} LabelMapHolds(labels: seq<Label>, l: Label)
    requires DistinctKeys(labels)
    ensures l in labels <==> l.0 in LabelMap(labels) && LabelMap(labels)[l.0] == l.1
    ensures l.0 in LabelMap(labels) ==> exists i :: 0 <= i < |labels| && labels[i].0 == l.0
  {
    if labels != [] {
      LabelMapHolds(labels[1..], l);
      assert labels == [labels[0]] + labels[1..];
    }
  }

  /**
   The round trip: with distinct keys on the line, a selector matches the printed line if and only if the
   names agree and its labels are among the line's, in any order, and it then returns the line's value.
   */
  lemma PrintMatchRoundTrip(parse: string -> Option<Number>, s: Metric, m: Metric, token: string, t: string)
    requires CleanName(s.name) && CleanMetric(m) && DistinctKeys(m.labels) && IsWord(token) && Detached(t)
    requires parse(token).Some?
    ensures Matched(parse, s, Line(m, token, t)).Some?
       <==> s.name == m.name && forall i :: 0 <= i < |s.labels| ==> s.labels[i] in m.labels
    ensures Matched(parse, s, Line(m, token, t)).Some? ==> Matched(parse, s, Line(m, token, t)) == parse(token)
  {
    MatchesExactly(parse, s, m, token, t);
    forall i | 0 <= i < |s.labels|
      ensures s.labels[i] in m.labels
         <==> s.labels[i].0 in LabelMap(m.labels) && LabelMap(m.labels)[s.labels[i].0] == s.labels[i].1
    {
      LabelMapHolds(m.labels, s.labels[i]);
    }
  }

  // ---------------------------------------------------------------- whole scrapes

  /** What an exporter writes: `#` lines, and one line per series. */
  datatype Entry = Comment(text: string) | Sample(metric: Metric, token: string)

  function Render(e: Entry): string {
    match e
    case Comment(text) => ['#'] + text
    case Sample(m, token) => Line(m, token, [])
  }

  /** Every entry on a line of its own. */
  function Scrape(entries: seq<Entry>): string {
    if entries == [] then [] else Render(entries[0]) + ['\n'] + Scrape(entries[1..])
  }

  predicate CleanEntry(e: Entry) {
    && '\n' !in Render(e)
    && (e.Sample? ==> CleanMetric(e.metric) && (e.metric.name == [] || e.metric.name[0] != '#') && IsWord(e.token))
  }

  /** The value of the first series the selector stands for. */
  ghost function FirstMatch(parse: string -> Option<Number>, s: Metric, entries: seq<Entry>): Option<Number> {
    if entries == [] then None
    else
      match entries[0]
      case Sample(m, token) =>
        if s.name == m.name && Carries(LabelMap(m.labels), s.labels) && parse(token).Some? then parse(token)
        else FirstMatch(parse, s, entries[1..])
      case Comment(_) => FirstMatch(parse, s, entries[1..])
  }

  function ChopReturn(s: string): string {
    if s != [] && s[|s| - 1] == '\r' then s[..|s| - 1] else s
  }

  /** Rust's `lines`: nothing after the last newline, and a carriage return dropped in front of a newline only. */
  function Lines(text: string): seq<string> {
    LinesOf(Split(text, '\n'))
  }

  function LinesOf(pieces: seq<string>): seq<string>
    requires pieces != []
  {
    if |pieces| == 1 then (if pieces[0] == [] then [] else pieces)
    else [ChopReturn(pieces[0])] + LinesOf(pieces[1..])
  }

  ghost function LookUp(parse: string -> Option<Number>, s: Metric, lines: seq<string>): Option<Number> {
    if lines == [] then None
    else if ['#'] <= lines[0] || Matched(parse, s, lines[0]).None? then LookUp(parse, s, lines[1..])
    else Matched(parse, s, lines[0])
  }

  /** `parse_metric_value`. */
  method ParseMetricValue(parse: string -> Option<Number>, s: Metric, text: string) returns (r: Option<Number>)
    ensures r == LookUp(parse, s, Lines(text))
  {
    var lines := Lines(text);
    for i := 0 to |lines|
      invariant LookUp(parse, s, lines) == LookUp(parse, s, lines[i..])
    {
      assert lines[i..][1..] == lines[i + 1..];
      if ['#'] <= lines[i] {
        continue;
      }
      var v := MatchLine(parse, s, lines[i]);
      if v.Some? {
        return v;
      }
    }
    r := None;
  }

  lemma RenderedLine(e: Entry)
    requires CleanEntry(e)
    ensures e.Comment? ==> ['#'] <= ChopReturn(Render(e))
    ensures e.Sample? ==> ChopReturn(Render(e)) == Render(e) && !(['#'] <= Render(e))
  {
    if e.Sample? {
      var s := Render(e);
      assert s[|s| - 1] == e.token[|e.token| - 1];
      assert s[0] == if e.metric.name != [] then e.metric.name[0] else if e.metric.labels != [] then '{' else ' ';
    }
  }

  /** Looking a selector up in a printed scrape finds the first series it stands for, and only such a series. */
  lemma {:induction false} ScrapeLookUp(parse: string -> Option<Number>, s: Metric, entries: seq<Entry>)
    requires CleanName(s.name) && forall i :: 0 <= i < |entries| ==> CleanEntry(entries[i])
    ensures LookUp(parse, s, Lines(Scrape(entries))) == FirstMatch(parse, s, entries)
  {
    if entries == [] {
      SplitNone([], '\n');
    } else {
      var e := entries[0];
      ScrapeLookUp(parse, s, entries[1..]);
      FirstLine(e, Scrape(entries[1..]));
      RenderedLine(e);
      if e.Sample? {
        MatchesExactly(parse, s, e.metric, e.token, []);
      }
    }
  }

  lemma FirstLine(e: Entry, rest: string)
    requires CleanEntry(e)
    ensures var lines := Lines(Render(e) + ['\n'] + rest);
            lines != [] && lines[0] == ChopReturn(Render(e)) && lines[1..] == Lines(rest)
  {
    SplitFirst(Render(e), '\n', rest);
    var pieces := [Render(e)] + Split(rest, '\n');
    assert pieces[1..] == Split(rest, '\n') && |pieces| > 1;
  }
}
