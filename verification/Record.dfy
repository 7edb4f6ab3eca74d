/**
 The on-disk record codec: a JSON array whose elements are kept byte for byte,
 and the older layout in which a height holds the bare block object.
 */
module Record {
  import opened Seqs
  import opened Wrappers
  import opened Json

  const BLOCK: nat := 0

  /** A borrowed slice of a record: the half-open range it occupies. */
  datatype Span = Span(start: nat, end: nat)

  predicate InRange(sp: Span, s: string) { sp.start <= sp.end <= |s| }

  function Slice(s: string, sp: Span): string
    requires InRange(sp, s)
  {
    s[sp.start..sp.end]
  }

  // ------------------------------------------------------------------ encode

  function Joined(es: seq<string>): string {
    if es == [] then "" else if |es| == 1 then es[0] else es[0] + ([','] + Joined(es[1..]))
  }

  function Encode(es: seq<string>): string { ['['] + (Joined(es) + [']']) }

  lemma {:induction false} JoinedSnoc(es: seq<string>, e: string)
    requires es != []
    ensures Joined(es + [e]) == Joined(es) + ([','] + e)
  {
    if |es| <= 1 {
    } else {
      assert (es + [e])[1..] == es[1..] + [e];
      JoinedSnoc(es[1..], e);
      Assoc([','], Joined(es[1..]), [','] + e);
      Assoc(es[0], [','] + Joined(es[1..]), [','] + e);
    }
  }

  /** `encode`: raw concatenation into one buffer. */
  method EncodeRecord(elements: seq<string>) returns (out: string)
    ensures out == Encode(elements)
  {
    out := ['['];
    for i := 0 to |elements|
      invariant out == ['['] + Joined(elements[..i])
    {
      var before := out;
      if i > 0 {
        out := out + [','];
      }
      out := out + elements[i];
      assert elements[..i + 1] == elements[..i] + [elements[i]];
      if i > 0 {
        JoinedSnoc(elements[..i], elements[i]);
        Assoc(before, [','], elements[i]);
        Assoc(['['], Joined(elements[..i]), [','] + elements[i]);
      }
    }
    assert elements[..|elements|] == elements;
    out := out + [']'];
    Assoc(['['], Joined(elements), [']']);
  }

  // ------------------------------------------------------------------- split

  function SplitItems(s: string, total: nat): (r: Option<(seq<Span>, string)>)
    requires |s| <= total
    ensures r.Some? ==> |r.value.1| < |s|
    decreases |s|
  {
    match SkipValue(s)
    case None => None
    case Some(u) =>
      var span := Span(total - |s|, total - |u|);
      var w := SkipWs(u);
      if StartsWith(w, ',') then
        (match SplitItems(SkipWs(w[1..]), total)
         case None => None
         case Some((spans, rest)) => Some(([span] + spans, rest)))
      else if StartsWith(w, ']') then Some(([span], w[1..]))
      else None
  }

  /** `split`: the record read as a JSON array of raw slices; fewer than two elements is an error. */
  function Split(record: string): Result<seq<Span>> {
    var t := SkipWs(record);
    if !StartsWith(t, '[') then Err
    else
      var u := SkipWs(t[1..]);
      if StartsWith(u, ']') then Err
      else
        match SplitItems(u, |record|)
        case None => Err
        case Some((spans, rest)) => if SkipWs(rest) == "" && |spans| >= 2 then Ok(spans) else Err
  }

  /** Rust's `is_ascii_whitespace`, which unlike JSON counts the form feed. */
  predicate IsAsciiWs(c: char) { IsWs(c) || c == '\U{0C}' }

  predicate IsBareBlock(record: string) {
    record != "" && (if IsAsciiWs(record[0]) then IsBareBlock(record[1..]) else record[0] == '{')
  }

  predicate IsCombinedRecord(record: string) { !IsBareBlock(record) }

  /** `element_span`: where element `idx` lies; `Ok(None)` when the record has no such element. */
  function ElementSpan(record: string, idx: nat): Result<Option<Span>> {
    if IsBareBlock(record) then
      if idx != BLOCK then Ok(None)
      else
        var s := SkipWs(record);
        match SkipValue(s)
        case None => Err
        case Some(u) => if SkipWs(u) == "" then Ok(Some(Span(|record| - |s|, |record| - |u|))) else Err
    else
      match Split(record)
      case Err => Err
      case Ok(spans) => Ok(if idx < |spans| then Some(spans[idx]) else None)
  }

  // ------------------------------------------------ what the split slices out

  ghost function Count(es: Entries): nat { if es.Last? then 1 else 1 + Count(es.rest) }

  ghost function ValueAt(es: Entries, i: nat): Value
    requires i < Count(es)
  {
    if i == 0 then es.value else ValueAt(es.rest, i - 1)
  }

  /** The slices of `text` are the renderings of the entries, one each, in order. */
  ghost predicate Slices(text: string, spans: seq<Span>, es: Entries) {
    && |spans| == Count(es)
    && forall i :: 0 <= i < |spans| ==>
         InRange(spans[i], text) && Slice(text, spans[i]) == Render(ValueAt(es, i))
  }

  ghost predicate Tail(text: string, s: string) { |s| <= |text| && text[|text| - |s|..] == s }

  lemma TailKept(text: string, s: string, head: string, u: string)
    requires Tail(text, s) && s == head + u
    ensures Tail(text, u)
    ensures text[|text| - |s|..|text| - |u|] == head
  {
    assert u == s[|head|..];
    assert head == s[..|head|];
  }

  lemma RenderSplits(v: Value, rest: string)
    ensures RenderTo(v, rest) == Render(v) + rest
  {
    assert "" + rest == rest;
    RenderAppends(v, "", rest);
  }

  lemma SlicesCons(text: string, sp: Span, spans: seq<Span>, es: Entries)
    requires es.More? && Slices(text, spans, es.rest)
    requires InRange(sp, text) && Slice(text, sp) == Render(es.value)
    ensures Slices(text, [sp] + spans, es)
  {
    var all := [sp] + spans;
    forall i | 0 <= i < |all|
      ensures InRange(all[i], text) && Slice(text, all[i]) == Render(ValueAt(es, i))
    {
      if i > 0 { assert all[i] == spans[i - 1]; }
    }
  }

  lemma EndsBefore(v: Value, after: string, tail: string)
    requires AllWs(after) && tail != "" && (tail[0] == ',' || tail[0] == ']')
    ensures Ends(v, after + tail)
  {
    if after != "" { assert IsWs(after[0]); }
  }

  /** One item: what the scanner leaves after it, and the slice it occupies. */
  lemma SplitItemOver(v: Value, after: string, tail: string, text: string)
    requires Valid(v) && AllWs(after) && tail != "" && (tail[0] == ',' || tail[0] == ']')
    requires Tail(text, RenderTo(v, after + tail))
    ensures var s, u := RenderTo(v, after + tail), after + tail;
            && SkipValue(s) == Some(u) && SkipWs(u) == tail && |u| <= |s| <= |text| && Tail(text, tail)
            && text[|text| - |s|..|text| - |u|] == Render(v)
  {
    hide Valid, Ends, SkipValue, SkipWs, Render, RenderTo, AllWs;
    var u := after + tail;
    EndsBefore(v, after, tail);
    SkipValueOver(v, u);
    SkipWsOver(after, tail);
    RenderSplits(v, u);
    TailKept(text, RenderTo(v, u), Render(v), u);
    TailKept(text, u, after, tail);
  }

  /** Every array tree splits into the texts of its entries, whatever whitespace it carries. */
  lemma {:induction false} SplitItemsOver(es: Entries, text: string, rest: string)
    requires ValidEntries(es, false)
    requires Tail(text, EntriesTo(es, [']'] + rest))
    ensures var r := SplitItems(EntriesTo(es, [']'] + rest), |text|);
            r.Some? && r.value.1 == rest && Slices(text, r.value.0, es)
    decreases es
  {
    hide Valid, SkipValue, SkipWs, RenderTo, Render, Tail, AllWs;
    var closing := [']'] + rest;
    var s := EntriesTo(es, closing);
    match es
    case Last(_, v, after) =>
      SplitItemOver(v, after, closing, text);
      assert closing[1..] == rest;
    case More(_, v, after, gap, more) =>
      var next := EntriesTo(more, closing);
      var comma := [','] + (gap + next);
      SplitItemOver(v, after, comma, text);
      assert comma[1..] == gap + next;
      NextItem(more, gap, text, rest);
      SplitItemsOver(more, text, rest);
      SlicesCons(text, Span(|text| - |s|, |text| - |after + comma|), SplitItems(next, |text|).value.0, es);
  }

  lemma NextItem(more: Entries, gap: string, text: string, rest: string)
    requires ValidEntries(more, false) && AllWs(gap) && Tail(text, [','] + (gap + EntriesTo(more, [']'] + rest)))
    ensures var next := EntriesTo(more, [']'] + rest); SkipWs(gap + next) == next && Tail(text, next)
  {
    var next := EntriesTo(more, [']'] + rest);
    SkipEntriesOver(more, false, rest);
    SkipWsOver(gap, next);
    hide EntriesTo, SkipEntries;
    TailKept(text, [','] + (gap + next), [','], gap + next);
    TailKept(text, gap + next, gap, next);
  }

  /** And nothing else splits: a successful split exhibits the tree it came from. */
  lemma {:induction false} SplitItemsTree(s: string, total: nat) returns (es: Entries)
    requires |s| <= total && SplitItems(s, total).Some?
    ensures ValidEntries(es, false)
    ensures s == EntriesTo(es, [']'] + SplitItems(s, total).value.1)
    ensures Count(es) == |SplitItems(s, total).value.0|
    decreases |s|
  {
    var v := ValueTaken(s);
    var u := SkipValue(s).value;
    var after := WsTaken(u);
    var w := SkipWs(u);
    assert w == [w[0]] + w[1..];
    if StartsWith(w, ',') {
      var gap := WsTaken(w[1..]);
      var more := SplitItemsTree(SkipWs(w[1..]), total);
      es := More(NoLabel, v, after, gap, more);
    } else {
      es := Last(NoLabel, v, after);
    }
  }

  /** A JSON array of two or more entries with optional whitespace around it. */
  ghost predicate IsRecordOf(record: string, lead: string, inner: string, es: Entries, trail: string) {
    && AllWs(lead) && AllWs(inner) && AllWs(trail)
    && ValidEntries(es, false) && Count(es) >= 2
    && record == lead + RenderTo(Filled(false, inner, es), trail)
  }

  /** `split` accepts exactly the JSON arrays of at least two values and slices out their texts. */
  lemma SplitOver(record: string, lead: string, inner: string, es: Entries, trail: string)
    requires IsRecordOf(record, lead, inner, es, trail)
    ensures Split(record).Ok? && Slices(record, Split(record).value, es)
  {
    hide ValidEntries, SkipWs, SkipEntries, SplitItems, EntriesTo, AllWs;
    var u := EntriesTo(es, [']'] + trail);
    var t := ['['] + (inner + u);
    SkipWsOver(lead, t);
    assert t[1..] == inner + u;
    SkipEntriesOver(es, false, trail);
    SkipWsOver(inner, u);
    assert record == lead + t && Tail(record, record);
    TailKept(record, record, lead, t);
    TailKept(record, t, ['['], inner + u);
    TailKept(record, inner + u, inner, u);
    SplitItemsOver(es, record, trail);
    assert trail + "" == trail;
    SkipWsOver(trail, "");
  }

  lemma SplitTree(record: string) returns (lead: string, inner: string, es: Entries, trail: string)
    requires Split(record).Ok?
    ensures IsRecordOf(record, lead, inner, es, trail)
  {
    hide ValidEntries, SkipWs, SplitItems, EntriesTo, AllWs;
    lead := WsTaken(record);
    var t := SkipWs(record);
    inner := WsTaken(t[1..]);
    var u := SkipWs(t[1..]);
    es := SplitItemsTree(u, |record|);
    trail := WsTaken(SplitItems(u, |record|).value.1);
    assert trail + "" == trail;
    assert t == ['['] + t[1..];
  }

  // ------------------------------------------------------------ main results

  /** Does element `idx` of the record read back as `text`, and does its span slice out that text? */
  ghost predicate ReadsAs(record: string, idx: nat, text: string) {
    match ElementSpan(record, idx)
    case Ok(Some(sp)) => InRange(sp, record) && Slice(record, sp) == text
    case _ => false
  }

  lemma {:induction false} ElementsTree(elements: seq<string>) returns (es: Entries)
    requires elements != [] && forall i :: 0 <= i < |elements| ==> WellFormed(elements[i])
    ensures ValidEntries(es, false) && Count(es) == |elements|
    ensures forall i :: 0 <= i < |elements| ==> Render(ValueAt(es, i)) == elements[i]
    ensures forall rest :: EntriesTo(es, rest) == Joined(elements) + rest
  {
    assert WellFormed(elements[0]);
    var v :| Valid(v) && Render(v) == elements[0];
    if |elements| == 1 {
      es := Last(NoLabel, v, "");
      forall rest: string ensures EntriesTo(es, rest) == Joined(elements) + rest {
        assert "" + rest == rest;
        RenderSplits(v, rest);
      }
    } else {
      var more := ElementsTree(elements[1..]);
      es := More(NoLabel, v, "", "", more);
      forall i | 0 <= i < |elements| ensures Render(ValueAt(es, i)) == elements[i] {
        if i > 0 { assert elements[i] == elements[1..][i - 1]; }
      }
      forall rest: string ensures EntriesTo(es, rest) == Joined(elements) + rest {
        MoreTo(v, more, Joined(elements[1..]), rest);
      }
    }
  }

  lemma MoreTo(v: Value, more: Entries, joined: string, rest: string)
    requires Valid(v) && EntriesTo(more, rest) == joined + rest
    ensures EntriesTo(More(NoLabel, v, "", "", more), rest) == (Render(v) + ([','] + joined)) + rest
  {
    assert "" + ([','] + ("" + (joined + rest))) == [','] + (joined + rest);
    RenderSplits(v, [','] + (joined + rest));
    Assoc([','], joined, rest);
    Assoc(Render(v), [','] + joined, rest);
  }

  /**
   Round trip: for any two or more JSON values, however nested, element `i` of the
   encoded record is exactly the `i`-th input, later indexes are absent, and the
   span slices out those same characters.
   */
  lemma RecordRoundTrip(elements: seq<string>, idx: nat)
    requires |elements| >= 2 && forall i :: 0 <= i < |elements| ==> WellFormed(elements[i])
    ensures IsCombinedRecord(Encode(elements))
    ensures idx < |elements| ==> ReadsAs(Encode(elements), idx, elements[idx])
    ensures idx >= |elements| ==> ElementSpan(Encode(elements), idx) == Ok(None)
  {
    var record := Encode(elements);
    var es := ElementsTree(elements);
    var body := EntriesTo(es, [']'] + "");
    assert [']'] + "" == [']'];
    assert body == Joined(elements) + [']'];
    assert "" + body == body;
    assert record == "" + RenderTo(Filled(false, "", es), "");
    SplitOver(record, "", "", es, "");
  }

  lemma {:induction false} BareBlockFirst(ws: string, rest: string)
    requires AllWs(ws)
    ensures IsBareBlock(ws + rest) == IsBareBlock(rest)
  {
    if ws == "" {
      assert ws + rest == rest;
    } else {
      assert (ws + rest)[1..] == ws[1..] + rest;
      BareBlockFirst(ws[1..], rest);
    }
  }

  /**
   The two layouts never meet: a JSON object (with any whitespace around it) is
   served whole as element 0 and has no derived element, and no text that splits
   as a record is taken for a bare block.
   */
  lemma BareObjectIsNotARecord(lead: string, block: Value, trail: string, idx: nat)
    requires AllWs(lead) && AllWs(trail)
    requires Valid(block) && (block.Empty? || block.Filled?) && block.isObject
    ensures var record := lead + RenderTo(block, trail);
            && !IsCombinedRecord(record) && Split(record).Err?
            && ReadsAs(record, BLOCK, Render(block))
            && (idx > BLOCK ==> ElementSpan(record, idx) == Ok(None))
  {
    hide Valid, Ends, RenderTo, Render, SkipValue, SkipWs, IsBareBlock, AllWs;
    var body := RenderTo(block, trail);
    var record := lead + body;
    ObjectFirst(block, trail);
    BareBlockFirst(lead, body);
    SkipWsOver(lead, body);
    SkipValueOver(block, trail);
    RenderSplits(block, trail);
    assert trail + "" == trail;
    SkipWsOver(trail, "");
    assert Tail(record, record);
    TailKept(record, record, lead, body);
    TailKept(record, body, Render(block), trail);
  }

  lemma ObjectFirst(block: Value, trail: string)
    requires (block.Empty? || block.Filled?) && block.isObject
    ensures var body := RenderTo(block, trail);
            body != "" && body[0] == '{' && !IsWs(body[0]) && IsBareBlock(body) && Ends(block, trail)
  {
  }

  /**
   Leading ASCII whitespace does not decide the layout, the form feed included; but JSON knows
   no form feed, so behind one no value is read.
   */
  lemma WhitespaceBeforeTheLayout(record: string, idx: nat)
    ensures forall c :: c in " \t\n\r\U{0C}" ==> IsBareBlock([c] + record) == IsBareBlock(record)
    ensures ElementSpan(['\U{0C}'] + record, idx) == if IsBareBlock(record) && idx != BLOCK then Ok(None) else Err
  {
    var fed := ['\U{0C}'] + record;
    forall c ensures ([c] + record)[1..] == record {}
    assert SkipWs(fed) == fed && SkipValue(fed).None?;
  }

  lemma SplitIsNotBare(record: string)
    requires Split(record).Ok?
    ensures IsCombinedRecord(record)
  {
    var lead, inner, es, trail := SplitTree(record);
    BareBlockFirst(lead, RenderTo(Filled(false, inner, es), trail));
  }

  lemma BareElementIsWellFormed(record: string)
    requires IsBareBlock(record) && ElementSpan(record, 0).Ok? && ElementSpan(record, 0).value.Some?
    ensures var sp := ElementSpan(record, 0).value.value;
            InRange(sp, record) && WellFormed(Slice(record, sp))
  {
    hide Valid, RenderTo, SkipWs, SkipValue, AllWs;
    var lead := WsTaken(record);
    var s := SkipWs(record);
    var v := ValueTaken(s);
    RenderSplits(v, SkipValue(s).value);
    assert record[|record| - |record|..] == record;
    TailKept(record, record, lead, s);
    TailKept(record, s, Render(v), SkipValue(s).value);
  }

  lemma CombinedElementIsWellFormed(record: string, idx: nat)
    requires Split(record).Ok? && idx < |Split(record).value|
    ensures var sp := Split(record).value[idx];
            InRange(sp, record) && WellFormed(Slice(record, sp))
  {
    hide Valid, RenderTo, ValidEntries, Split, IsRecordOf;
    var lead, inner, es, trail := SplitTree(record);
    SplitOver(record, lead, inner, es, trail);
    ValuesOfRecord(record, lead, inner, es, trail, idx);
  }

  lemma ValuesOfRecord(record: string, lead: string, inner: string, es: Entries, trail: string, i: nat)
    requires IsRecordOf(record, lead, inner, es, trail) && i < Count(es)
    ensures Valid(ValueAt(es, i))
  {
    ValuesValid(es, i);
  }

  /** Reading is sound on any stored bytes: an element that is returned is one JSON value. */
  lemma ElementIsWellFormed(record: string, idx: nat)
    requires ElementSpan(record, idx).Ok? && ElementSpan(record, idx).value.Some?
    ensures var sp := ElementSpan(record, idx).value.value;
            InRange(sp, record) && WellFormed(Slice(record, sp))
  {
    hide WellFormed, Split, IsBareBlock;
    if IsBareBlock(record) {
      BareElementIsWellFormed(record);
    } else {
      CombinedElementIsWellFormed(record, idx);
    }
  }

  lemma {:induction false} ValuesValid(es: Entries, i: nat)
    requires ValidEntries(es, false) && i < Count(es)
    ensures Valid(ValueAt(es, i))
  {
    if i == 0 {
    } else {
      ValuesValid(es.rest, i - 1);
    }
  }
}
