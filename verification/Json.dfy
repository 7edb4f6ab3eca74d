/**
 JSON texts in the grammar of RFC 8259, sections 2 to 7, twice over: as concrete
 syntax trees with a rendering, and as the scanner that skips one value. The
 record codec relies on the scanner; the trees are its independent reference.

 Texts are sequences of Unicode characters, as the grammar is written.
 */
module Json {
  import opened Seqs
  import opened Wrappers

  // ---------------------------------------------------------------- lexical

  predicate IsWs(c: char) { c == ' ' || c == '\t' || c == '\n' || c == '\r' }

  predicate IsDigit(c: char) { '0' <= c <= '9' }

  predicate IsHex(c: char) { IsDigit(c) || 'a' <= c <= 'f' || 'A' <= c <= 'F' }

  predicate IsEscape(c: char) {
    c == '"' || c == '\\' || c == '/' || c == 'b' || c == 'f' || c == 'n' || c == 'r' || c == 't'
  }

  predicate IsPlain(c: char) { c >= ' ' && c != '"' && c != '\\' }

  predicate AllWs(s: string) { forall i :: 0 <= i < |s| ==> IsWs(s[i]) }

  predicate AllDigits(s: string) { forall i :: 0 <= i < |s| ==> IsDigit(s[i]) }

  predicate StartsWith(s: string, c: char) { s != "" && s[0] == c }

  predicate StartsWithDigit(s: string) { s != "" && IsDigit(s[0]) }

  // ---------------------------------------------------------- syntax trees

  /** One character of a string literal: itself, a two-character escape, or `\uXXXX`. */
  datatype StrItem = Plain(c: char) | Escape(c: char) | Unicode(a: char, b: char, c': char, d: char)

  datatype Exponent = NoExponent | Exponent(marker: char, sign: string, digits: string)

  /** What stands before an entry's value: nothing in an array, `"key" ws : ws` in an object. */
  datatype Label = NoLabel | Label(key: seq<StrItem>, before: string, after: string)

  datatype Value =
    | Word(text: string)
    | Str(items: seq<StrItem>)
    | Number(minus: bool, whole: string, fraction: string, exponent: Exponent)
    | Empty(isObject: bool, lead: string)
    | Filled(isObject: bool, lead: string, entries: Entries)

  datatype Entries =
    | Last(tag: Label, value: Value, after: string)
    | More(tag: Label, value: Value, after: string, gap: string, rest: Entries)

  predicate ValidItem(i: StrItem) {
    match i
    case Plain(c) => IsPlain(c)
    case Escape(c) => IsEscape(c)
    case Unicode(a, b, c, d) => IsHex(a) && IsHex(b) && IsHex(c) && IsHex(d)
  }

  predicate ValidItems(items: seq<StrItem>) { forall i :: 0 <= i < |items| ==> ValidItem(items[i]) }

  predicate ValidExponent(e: Exponent) {
    e.Exponent? ==>
      && (e.marker == 'e' || e.marker == 'E')
      && (e.sign == "" || e.sign == "+" || e.sign == "-")
      && e.digits != "" && AllDigits(e.digits)
  }

  predicate ValidWhole(w: string) { w != "" && AllDigits(w) && (w[0] == '0' ==> |w| == 1) }

  predicate ValidLabel(l: Label, isObject: bool) {
    if isObject then l.Label? && ValidItems(l.key) && AllWs(l.before) && AllWs(l.after)
    else l.NoLabel?
  }

  predicate Valid(v: Value) {
    match v
    case Word(t) => t == "true" || t == "false" || t == "null"
    case Str(items) => ValidItems(items)
    case Number(_, w, f, e) => ValidWhole(w) && AllDigits(f) && ValidExponent(e)
    case Empty(_, lead) => AllWs(lead)
    case Filled(o, lead, entries) => AllWs(lead) && ValidEntries(entries, o)
  }

  predicate ValidEntries(es: Entries, isObject: bool) {
    match es
    case Last(l, v, after) => ValidLabel(l, isObject) && Valid(v) && AllWs(after)
    case More(l, v, after, gap, rest) =>
      ValidLabel(l, isObject) && Valid(v) && AllWs(after) && AllWs(gap) && ValidEntries(rest, isObject)
  }

  // Renderings take the text that follows them, so that `RenderTo(v, rest)` is the
  // value's own text with `rest` appended (see `RenderAppends`).

  function ItemTo(i: StrItem, rest: string): string {
    match i
    case Plain(c) => [c] + rest
    case Escape(c) => ['\\', c] + rest
    case Unicode(a, b, c, d) => ['\\', 'u', a, b, c, d] + rest
  }

  function ItemsTo(items: seq<StrItem>, rest: string): string {
    if items == [] then rest else ItemTo(items[0], ItemsTo(items[1..], rest))
  }

  function StringTo(items: seq<StrItem>, rest: string): string {
    ['"'] + ItemsTo(items, ['"'] + rest)
  }

  function ExponentTo(e: Exponent, rest: string): string {
    match e
    case NoExponent => rest
    case Exponent(m, s, d) => [m] + (s + (d + rest))
  }

  /** An empty `fraction` is a number written without a decimal point. */
  function FractionTo(f: string, rest: string): string { if f == "" then rest else ['.'] + (f + rest) }

  function NumberTo(v: Value, rest: string): string
    requires v.Number?
  {
    var unsigned := v.whole + FractionTo(v.fraction, ExponentTo(v.exponent, rest));
    if v.minus then ['-'] + unsigned else unsigned
  }

  function LabelTo(l: Label, rest: string): string {
    match l
    case NoLabel => rest
    case Label(key, before, after) => StringTo(key, before + ([':'] + (after + rest)))
  }

  function Opener(isObject: bool): char { if isObject then '{' else '[' }

  function Closer(isObject: bool): char { if isObject then '}' else ']' }

  function RenderTo(v: Value, rest: string): string {
    match v
    case Word(t) => t + rest
    case Str(items) => StringTo(items, rest)
    case Number(_, _, _, _) => NumberTo(v, rest)
    case Empty(o, lead) => [Opener(o)] + (lead + ([Closer(o)] + rest))
    case Filled(o, lead, es) => [Opener(o)] + (lead + EntriesTo(es, [Closer(o)] + rest))
  }

  function EntriesTo(es: Entries, rest: string): string {
    match es
    case Last(l, v, after) => LabelTo(l, RenderTo(v, after + rest))
    case More(l, v, after, gap, more) =>
      LabelTo(l, RenderTo(v, after + ([','] + (gap + EntriesTo(more, rest)))))
  }

  function Render(v: Value): string { RenderTo(v, "") }

  /** A text that is exactly one JSON value, with no whitespace around it. */
  ghost predicate WellFormed(s: string) { exists v :: Valid(v) && Render(v) == s }

  /** A number must not be followed by a character that would extend it. */
  predicate Ends(v: Value, rest: string) {
    v.Number? && rest != "" ==> !IsDigit(rest[0]) && rest[0] != '.' && rest[0] != 'e' && rest[0] != 'E'
  }

  // ---------------------------------------------------------------- scanner

  // Each `Skip…` function returns what is left of the text after the construct it skips.

  function SkipWs(s: string): (r: string)
    ensures |r| <= |s|
  {
    if s != "" && IsWs(s[0]) then SkipWs(s[1..]) else s
  }

  function SkipDigits(s: string): (r: string)
    ensures |r| <= |s|
  {
    if StartsWithDigit(s) then SkipDigits(s[1..]) else s
  }

  /** The rest of a string literal whose opening quote is already consumed. */
  function SkipString(s: string): (r: Option<string>)
    ensures r.Some? ==> |r.value| < |s|
  {
    if s == "" then None
    else if s[0] == '"' then Some(s[1..])
    else if s[0] == '\\' then
      if |s| < 2 then None
      else if IsEscape(s[1]) then SkipString(s[2..])
      else if s[1] == 'u' && |s| >= 6 && IsHex(s[2]) && IsHex(s[3]) && IsHex(s[4]) && IsHex(s[5]) then
        SkipString(s[6..])
      else None
    else if s[0] < ' ' then None
    else SkipString(s[1..])
  }

  function SkipExponent(s: string): (r: Option<string>)
    ensures r.Some? ==> |r.value| <= |s|
  {
    if StartsWith(s, 'e') || StartsWith(s, 'E') then
      var t := s[1..];
      var u := if StartsWith(t, '+') || StartsWith(t, '-') then t[1..] else t;
      if StartsWithDigit(u) then Some(SkipDigits(u)) else None
    else Some(s)
  }

  function SkipFraction(s: string): (r: Option<string>)
    ensures r.Some? ==> |r.value| <= |s|
  {
    if StartsWith(s, '.') then
      if StartsWithDigit(s[1..]) then SkipExponent(SkipDigits(s[1..])) else None
    else SkipExponent(s)
  }

  function SkipNumber(s: string): (r: Option<string>)
    ensures r.Some? ==> |r.value| < |s|
  {
    var t := if StartsWith(s, '-') then s[1..] else s;
    if !StartsWithDigit(t) then None
    else if t[0] == '0' then
      if StartsWithDigit(t[1..]) then None else SkipFraction(t[1..])
    else SkipFraction(SkipDigits(t[1..]))
  }

  function SkipLabel(s: string, isObject: bool): (r: Option<string>)
    ensures r.Some? ==> |r.value| <= |s|
  {
    if !isObject then Some(s)
    else if !StartsWith(s, '"') then None
    else
      match SkipString(s[1..])
      case None => None
      case Some(t) =>
        var u := SkipWs(t);
        if StartsWith(u, ':') then Some(SkipWs(u[1..])) else None
  }

  function SkipValue(s: string): (r: Option<string>)
    ensures r.Some? ==> |r.value| < |s|
    decreases |s|, 0
  {
    if s == "" then None
    else if s[0] == '"' then SkipString(s[1..])
    else if s[0] == '-' || IsDigit(s[0]) then SkipNumber(s)
    else if s[0] == '[' then SkipContainer(s[1..], false)
    else if s[0] == '{' then SkipContainer(s[1..], true)
    else if "true" <= s then Some(s[4..])
    else if "null" <= s then Some(s[4..])
    else if "false" <= s then Some(s[5..])
    else None
  }

  function SkipContainer(s: string, isObject: bool): (r: Option<string>)
    ensures r.Some? ==> |r.value| <= |s|
    decreases |s|, 2
  {
    var t := SkipWs(s);
    if StartsWith(t, Closer(isObject)) then Some(t[1..]) else SkipEntries(t, isObject)
  }

  function SkipEntries(s: string, isObject: bool): (r: Option<string>)
    ensures r.Some? ==> |r.value| <= |s|
    decreases |s|, 1
  {
    match SkipLabel(s, isObject)
    case None => None
    case Some(t) =>
      match SkipValue(t)
      case None => None
      case Some(u) =>
        var w := SkipWs(u);
        if StartsWith(w, ',') then SkipEntries(SkipWs(w[1..]), isObject)
        else if StartsWith(w, Closer(isObject)) then Some(w[1..])
        else None
  }

  // ----------------------------------------- the scanner skips every rendering

  lemma {:induction false} SkipWsOver(w: string, rest: string)
    requires AllWs(w) && (rest == "" || !IsWs(rest[0]))
    ensures SkipWs(w + rest) == rest
  {
    if w == "" {
      assert w + rest == rest;
    } else {
      assert (w + rest)[1..] == w[1..] + rest;
      SkipWsOver(w[1..], rest);
    }
  }

  lemma {:induction false} SkipDigitsOver(d: string, rest: string)
    requires AllDigits(d) && !StartsWithDigit(rest)
    ensures SkipDigits(d + rest) == rest
  {
    if d == "" {
      assert d + rest == rest;
    } else {
      assert (d + rest)[1..] == d[1..] + rest;
      SkipDigitsOver(d[1..], rest);
    }
  }

  lemma {:induction false} SkipStringOver(items: seq<StrItem>, rest: string)
    requires ValidItems(items)
    ensures SkipString(ItemsTo(items, ['"'] + rest)) == Some(rest)
  {
    if items == [] {
    } else {
      var more := ItemsTo(items[1..], ['"'] + rest);
      SkipStringOver(items[1..], rest);
      match items[0]
      case Plain(c) => assert ([c] + more)[1..] == more;
      case Escape(c) => assert (['\\', c] + more)[2..] == more;
      case Unicode(a, b, c, d) => assert (['\\', 'u', a, b, c, d] + more)[6..] == more;
    }
  }

  lemma SkipExponentOver(e: Exponent, rest: string)
    requires ValidExponent(e)
    requires rest == "" || (!IsDigit(rest[0]) && rest[0] != 'e' && rest[0] != 'E')
    ensures SkipExponent(ExponentTo(e, rest)) == Some(rest)
  {
    if e.Exponent? {
      var t := e.digits + rest;
      SkipDigitsOver(e.digits, rest);
      assert ([e.marker] + (e.sign + t))[1..] == e.sign + t;
      hide AllDigits, SkipDigits;
      if e.sign == "" {
        assert e.sign + t == t;
      } else {
        assert (e.sign + t)[1..] == t;
      }
    }
  }

  lemma SkipFractionOver(f: string, e: Exponent, rest: string)
    requires AllDigits(f) && ValidExponent(e)
    requires rest == "" || (!IsDigit(rest[0]) && rest[0] != '.' && rest[0] != 'e' && rest[0] != 'E')
    ensures var s := FractionTo(f, ExponentTo(e, rest));
            SkipFraction(s) == Some(rest) && !StartsWithDigit(s)
  {
    var t := ExponentTo(e, rest);
    SkipExponentOver(e, rest);
    if f != "" {
      assert (['.'] + (f + t))[1..] == f + t;
      SkipDigitsOver(f, t);
    }
  }

  lemma SkipNumberOver(v: Value, rest: string)
    requires v.Number? && Valid(v) && Ends(v, rest)
    ensures SkipNumber(NumberTo(v, rest)) == Some(rest)
  {
    var t := FractionTo(v.fraction, ExponentTo(v.exponent, rest));
    SkipFractionOver(v.fraction, v.exponent, rest);
    assert (['-'] + (v.whole + t))[1..] == v.whole + t;
    assert (v.whole + t)[1..] == v.whole[1..] + t;
    SkipDigitsOver(v.whole[1..], t);
  }

  /** A rendering never begins with whitespace or a closing bracket. */
  lemma RenderFirst(v: Value, rest: string)
    requires Valid(v)
    ensures var s := RenderTo(v, rest);
            s != "" && !IsWs(s[0]) && s[0] != ']' && s[0] != '}'
  {
  }

  lemma SkipLabelOver(l: Label, isObject: bool, rest: string)
    requires ValidLabel(l, isObject)
    requires rest != "" && !IsWs(rest[0])
    ensures SkipLabel(LabelTo(l, rest), isObject) == Some(rest)
  {
    if isObject {
      var u := [':'] + (l.after + rest);
      var t := l.before + u;
      var s := ItemsTo(l.key, ['"'] + t);
      assert (['"'] + s)[1..] == s;
      SkipStringOver(l.key, t);
      SkipWsOver(l.before, u);
      assert u[1..] == l.after + rest;
      SkipWsOver(l.after, rest);
    }
  }

  lemma SkipWordOver(t: string, rest: string)
    requires t == "true" || t == "false" || t == "null"
    ensures SkipValue(t + rest) == Some(rest)
  {
    assert (t + rest)[|t|..] == rest;
  }

  lemma SkipOpened(o: bool, s: string)
    ensures SkipValue([Opener(o)] + s) == SkipContainer(s, o)
  {
    assert ([Opener(o)] + s)[1..] == s;
  }

  lemma SkipEmptyOver(o: bool, lead: string, rest: string)
    requires AllWs(lead)
    ensures SkipContainer(lead + ([Closer(o)] + rest), o) == Some(rest)
  {
    var closing := [Closer(o)] + rest;
    SkipWsOver(lead, closing);
    assert closing[1..] == rest;
  }

  lemma SkipFilledOver(o: bool, lead: string, body: string, rest: string)
    requires AllWs(lead) && body != "" && !IsWs(body[0]) && body[0] != Closer(o) && SkipEntries(body, o) == Some(rest)
    ensures SkipContainer(lead + body, o) == Some(rest)
  {
    SkipWsOver(lead, body);
  }

  /** Completeness: skipping the rendering of a tree leaves exactly what follows it. */
  lemma {:induction false} SkipValueOver(v: Value, rest: string)
    requires Valid(v) && Ends(v, rest)
    ensures SkipValue(RenderTo(v, rest)) == Some(rest)
    decreases v
  {
    match v
    case Word(t) => SkipWordOver(t, rest);
    case Str(items) =>
      var s := ItemsTo(items, ['"'] + rest);
      assert (['"'] + s)[1..] == s;
      SkipStringOver(items, rest);
    case Number(_, _, _, _) => SkipNumberOver(v, rest);
    case Empty(o, lead) =>
      SkipEmptyOver(o, lead, rest);
      SkipOpened(o, lead + ([Closer(o)] + rest));
    case Filled(o, lead, es) =>
      hide SkipValue, SkipContainer, SkipEntries;
      var body := EntriesTo(es, [Closer(o)] + rest);
      SkipEntriesOver(es, o, rest);
      SkipFilledOver(o, lead, body, rest);
      SkipOpened(o, lead + body);
  }

  /** One entry is skipped up to the comma or bracket that follows it. */
  lemma SkipEntryOver(l: Label, v: Value, after: string, tail: string, isObject: bool)
    requires ValidLabel(l, isObject) && Valid(v) && AllWs(after) && tail != "" && !IsWs(tail[0])
    requires SkipValue(RenderTo(v, after + tail)) == Some(after + tail)
    ensures var body := LabelTo(l, RenderTo(v, after + tail));
            && body != "" && !IsWs(body[0]) && body[0] != Closer(isObject)
            && SkipEntries(body, isObject) ==
                 if tail[0] == ',' then SkipEntries(SkipWs(tail[1..]), isObject)
                 else if tail[0] == Closer(isObject) then Some(tail[1..]) else None
  {
    RenderFirst(v, after + tail);
    SkipLabelOver(l, isObject, RenderTo(v, after + tail));
    SkipWsOver(after, tail);
    hide SkipValue, SkipLabel, RenderTo;
  }

  lemma {:induction false} SkipEntriesOver(es: Entries, isObject: bool, rest: string)
    requires ValidEntries(es, isObject)
    ensures var body := EntriesTo(es, [Closer(isObject)] + rest);
            && body != "" && !IsWs(body[0]) && body[0] != Closer(isObject)
            && SkipEntries(body, isObject) == Some(rest)
    decreases es
  {
    hide SkipValue, SkipEntries, RenderTo, LabelTo;
    var closing := [Closer(isObject)] + rest;
    match es
    case Last(l, v, after) =>
      SkipValueOver(v, after + closing);
      SkipEntryOver(l, v, after, closing, isObject);
      assert closing[1..] == rest;
    case More(l, v, after, gap, more) =>
      var next := EntriesTo(more, closing);
      var comma := [','] + (gap + next);
      SkipEntriesOver(more, isObject, rest);
      SkipValueOver(v, after + comma);
      SkipEntryOver(l, v, after, comma, isObject);
      assert comma[1..] == gap + next;
      SkipWsOver(gap, next);
  }

  // ------------------------------------ everything the scanner skips is a value

  lemma {:induction false} WsTaken(s: string) returns (w: string)
    ensures AllWs(w) && s == w + SkipWs(s)
    ensures var r := SkipWs(s); r == "" || !IsWs(r[0])
  {
    if s != "" && IsWs(s[0]) {
      var w' := WsTaken(s[1..]);
      w := [s[0]] + w';
      assert s == [s[0]] + s[1..];
      Assoc([s[0]], w', SkipWs(s[1..]));
    } else {
      w := "";
    }
  }

  lemma {:induction false} DigitsTaken(s: string) returns (d: string)
    ensures AllDigits(d) && s == d + SkipDigits(s)
    ensures StartsWithDigit(s) ==> d != "" && d[0] == s[0]
    ensures !StartsWithDigit(SkipDigits(s))
  {
    if StartsWithDigit(s) {
      var d' := DigitsTaken(s[1..]);
      d := [s[0]] + d';
      assert s == [s[0]] + s[1..];
      Assoc([s[0]], d', SkipDigits(s[1..]));
    } else {
      d := "";
    }
  }

  lemma {:induction false} StringTaken(s: string) returns (items: seq<StrItem>)
    requires SkipString(s).Some?
    ensures ValidItems(items) && s == ItemsTo(items, ['"'] + SkipString(s).value)
  {
    if s[0] == '"' {
      items := [];
    } else if s[0] != '\\' {
      var items' := StringTaken(s[1..]);
      items := [Plain(s[0])] + items';
      assert s == [s[0]] + s[1..];
    } else if IsEscape(s[1]) {
      var items' := StringTaken(s[2..]);
      items := [Escape(s[1])] + items';
      assert s == ['\\', s[1]] + s[2..];
    } else {
      var items' := StringTaken(s[6..]);
      items := [Unicode(s[2], s[3], s[4], s[5])] + items';
      assert s == ['\\', 'u', s[2], s[3], s[4], s[5]] + s[6..];
    }
  }

  lemma ExponentTaken(s: string) returns (e: Exponent)
    requires SkipExponent(s).Some?
    ensures ValidExponent(e) && s == ExponentTo(e, SkipExponent(s).value)
  {
    if StartsWith(s, 'e') || StartsWith(s, 'E') {
      var t := s[1..];
      var signed := StartsWith(t, '+') || StartsWith(t, '-');
      var sign := if signed then [t[0]] else "";
      var u := if signed then t[1..] else t;
      var d := DigitsTaken(u);
      e := Exponent(s[0], sign, d);
      assert t == sign + u;
      assert s == [s[0]] + t;
    } else {
      e := NoExponent;
    }
  }

  lemma FractionTaken(s: string) returns (f: string, e: Exponent)
    requires SkipFraction(s).Some?
    ensures AllDigits(f) && ValidExponent(e)
    ensures s == FractionTo(f, ExponentTo(e, SkipFraction(s).value))
  {
    if StartsWith(s, '.') {
      f := DigitsTaken(s[1..]);
      e := ExponentTaken(SkipDigits(s[1..]));
      assert s == ['.'] + s[1..];
    } else {
      f := "";
      e := ExponentTaken(s);
    }
  }

  lemma NumberTaken(s: string) returns (v: Value)
    requires SkipNumber(s).Some?
    ensures v.Number? && Valid(v) && s == NumberTo(v, SkipNumber(s).value)
  {
    var minus := StartsWith(s, '-');
    var t := if minus then s[1..] else s;
    assert minus ==> s == ['-'] + t;
    var w, u := [t[0]], t[1..];
    assert t == w + u;
    if t[0] != '0' {
      var d := DigitsTaken(t);
      w, u := d, SkipDigits(t);
      assert u == SkipDigits(t[1..]);
    }
    var f, e := FractionTaken(u);
    v := Number(minus, w, f, e);
  }

  lemma LabelTaken(s: string, isObject: bool) returns (l: Label)
    requires SkipLabel(s, isObject).Some?
    ensures ValidLabel(l, isObject) && s == LabelTo(l, SkipLabel(s, isObject).value)
  {
    if isObject {
      var key := StringTaken(s[1..]);
      var t := SkipString(s[1..]).value;
      var before := WsTaken(t);
      var u := SkipWs(t);
      var after := WsTaken(u[1..]);
      l := Label(key, before, after);
      assert u == [':'] + u[1..];
      assert s == ['"'] + s[1..];
    } else {
      l := NoLabel;
    }
  }

  /** Soundness: whatever the scanner skips is the rendering of a tree. */
  lemma {:induction false} ValueTaken(s: string) returns (v: Value)
    requires SkipValue(s).Some?
    ensures Valid(v) && s == RenderTo(v, SkipValue(s).value)
    decreases |s|, 0
  {
    if s[0] == '"' {
      var items := StringTaken(s[1..]);
      v := Str(items);
      assert s == ['"'] + s[1..];
    } else if s[0] == '-' || IsDigit(s[0]) {
      v := NumberTaken(s);
    } else if s[0] == '[' || s[0] == '{' {
      v := ContainerTaken(s[1..], s[0] == '{');
      assert s == [s[0]] + s[1..];
    } else {
      var n := if "false" <= s then 5 else 4;
      v := Word(s[..n]);
      assert s == s[..n] + s[n..];
    }
  }

  lemma {:induction false} ContainerTaken(s: string, isObject: bool) returns (v: Value)
    requires SkipContainer(s, isObject).Some?
    ensures Valid(v) && [Opener(isObject)] + s == RenderTo(v, SkipContainer(s, isObject).value)
    decreases |s|, 2
  {
    hide SkipWs, SkipEntries, EntriesTo, ValidEntries, AllWs;
    var lead := WsTaken(s);
    var t := SkipWs(s);
    if StartsWith(t, Closer(isObject)) {
      v := Empty(isObject, lead);
      assert t == [Closer(isObject)] + t[1..];
    } else {
      var es := EntriesTaken(t, isObject);
      v := Filled(isObject, lead, es);
    }
  }

  lemma {:induction false} EntriesTaken(s: string, isObject: bool) returns (es: Entries)
    requires SkipEntries(s, isObject).Some?
    ensures ValidEntries(es, isObject)
    ensures s == EntriesTo(es, [Closer(isObject)] + SkipEntries(s, isObject).value)
    decreases |s|, 1
  {
    hide SkipValue, SkipWs, SkipLabel, LabelTo, RenderTo, Valid, ValidLabel, AllWs;
    var l := LabelTaken(s, isObject);
    var t := SkipLabel(s, isObject).value;
    var v := ValueTaken(t);
    var u := SkipValue(t).value;
    var after := WsTaken(u);
    var w := SkipWs(u);
    assert w == [w[0]] + w[1..];
    if StartsWith(w, ',') {
      var gap := WsTaken(w[1..]);
      var more := EntriesTaken(SkipWs(w[1..]), isObject);
      es := More(l, v, after, gap, more);
    } else {
      es := Last(l, v, after);
    }
  }

  /** The scanner decides the grammar: a text is one value exactly when skipping it leaves nothing. */
  lemma WellFormedIff(s: string)
    ensures WellFormed(s) <==> SkipValue(s) == Some("")
  {
    if WellFormed(s) {
      var v :| Valid(v) && Render(v) == s;
      SkipValueOver(v, "");
    }
    if SkipValue(s) == Some("") {
      var v := ValueTaken(s);
    }
  }

  /** What a string may hold, in characters: the plain ones, */
  lemma PlainCharacters(c: char)
    ensures WellFormed(['"', c, '"']) <==> c >= ' ' && c != '"' && c != '\\'
  {
    hide WellFormed, SkipContainer, SkipNumber;
    var t := [c, '"'];
    WellFormedIff(['"', c, '"']);
    assert ['"', c, '"'][1..] == t && t[1..] == "\"" && t[2..] == "" && "\""[1..] == "";
    assert SkipString("\"") == Some("") && SkipString("") == None;
    assert SkipValue(['"', c, '"']) == SkipString(t);
  }

  /** eight escapes of two characters, */
  lemma EscapeCharacters(c: char)
    ensures WellFormed(['"', '\\', c, '"']) <==> c in "\"\\/bfnrt"
  {
    hide WellFormed, SkipContainer, SkipNumber;
    var t := ['\\', c, '"'];
    WellFormedIff(['"', '\\', c, '"']);
    assert ['"', '\\', c, '"'][1..] == t && t[2..] == "\"" && "\""[1..] == "";
    assert SkipString("\"") == Some("");
    assert SkipValue(['"', '\\', c, '"']) == SkipString(t);
  }

  /** and four hex digits, of either case, after `\u`. */
  lemma UnicodeCharacters(c: char)
    ensures WellFormed(['"', '\\', 'u', '0', '9', 'f', c, '"']) <==> c in "0123456789abcdefABCDEF"
  {
    hide WellFormed, SkipContainer, SkipNumber;
    var t := ['\\', 'u', '0', '9', 'f', c, '"'];
    WellFormedIff(['"', '\\', 'u', '0', '9', 'f', c, '"']);
    assert ['"', '\\', 'u', '0', '9', 'f', c, '"'][1..] == t && t[6..] == "\"" && "\""[1..] == "";
    assert SkipString("\"") == Some("");
    assert SkipValue(['"', '\\', 'u', '0', '9', 'f', c, '"']) == SkipString(t);
  }

  // -------------------------------- a rendering is the value's text, then the rest

  lemma {:induction false} ItemsAppend(items: seq<StrItem>, a: string, b: string)
    ensures ItemsTo(items, a + b) == ItemsTo(items, a) + b
  {
    if items == [] {
    } else {
      ItemsAppend(items[1..], a, b);
      var t := ItemsTo(items[1..], a);
      match items[0]
      case Plain(c) => assert [c] + (t + b) == ([c] + t) + b;
      case Escape(c) => assert ['\\', c] + (t + b) == (['\\', c] + t) + b;
      case Unicode(x, y, c, d) =>
        assert ['\\', 'u', x, y, c, d] + (t + b) == (['\\', 'u', x, y, c, d] + t) + b;
    }
  }

  lemma StringAppends(items: seq<StrItem>, a: string, b: string)
    ensures StringTo(items, a + b) == StringTo(items, a) + b
  {
    Assoc(['"'], a, b);
    ItemsAppend(items, ['"'] + a, b);
    Assoc(['"'], ItemsTo(items, ['"'] + a), b);
  }

  lemma NumberAppends(v: Value, a: string, b: string)
    requires v.Number?
    ensures NumberTo(v, a + b) == NumberTo(v, a) + b
  {
    var e := v.exponent;
    if e.Exponent? {
      Assoc(e.digits, a, b);
      Assoc(e.sign, e.digits + a, b);
      Assoc([e.marker], e.sign + (e.digits + a), b);
    }
    var t := ExponentTo(e, a);
    Assoc(v.fraction, t, b);
    Assoc(['.'], v.fraction + t, b);
    var u := FractionTo(v.fraction, t);
    Assoc(v.whole, u, b);
    Assoc(['-'], v.whole + u, b);
  }

  lemma LabelAppends(l: Label, a: string, b: string)
    ensures LabelTo(l, a + b) == LabelTo(l, a) + b
  {
    if l.Label? {
      Assoc(l.after, a, b);
      Assoc([':'], l.after + a, b);
      Assoc(l.before, [':'] + (l.after + a), b);
      StringAppends(l.key, l.before + ([':'] + (l.after + a)), b);
    }
  }

  lemma {:induction false} RenderAppends(v: Value, a: string, b: string)
    ensures RenderTo(v, a + b) == RenderTo(v, a) + b
    decreases v
  {
    match v
    case Word(t) => Assoc(t, a, b);
    case Str(items) => StringAppends(items, a, b);
    case Number(_, _, _, _) => NumberAppends(v, a, b);
    case Empty(o, lead) =>
      Assoc([Closer(o)], a, b);
      Assoc(lead, [Closer(o)] + a, b);
      Assoc([Opener(o)], lead + ([Closer(o)] + a), b);
    case Filled(o, lead, es) =>
      Assoc([Closer(o)], a, b);
      EntriesAppend(es, [Closer(o)] + a, b);
      var t := EntriesTo(es, [Closer(o)] + a);
      Assoc(lead, t, b);
      Assoc([Opener(o)], lead + t, b);
  }

  lemma {:induction false} EntriesAppend(es: Entries, a: string, b: string)
    ensures EntriesTo(es, a + b) == EntriesTo(es, a) + b
    decreases es
  {
    match es
    case Last(l, v, after) =>
      Assoc(after, a, b);
      RenderAppends(v, after + a, b);
      LabelAppends(l, RenderTo(v, after + a), b);
    case More(l, v, after, gap, more) =>
      EntriesAppend(more, a, b);
      var t := EntriesTo(more, a);
      Assoc(gap, t, b);
      Assoc([','], gap + t, b);
      Assoc(after, [','] + (gap + t), b);
      RenderAppends(v, after + ([','] + (gap + t)), b);
      LabelAppends(l, RenderTo(v, after + ([','] + (gap + t))), b);
  }
}
