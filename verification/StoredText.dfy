/**
 The store's view of a height, tied to the text it is read from: `Storage.Element` picks the
 very slice that `Record.ElementSpan` finds.
 */
module StoredText {
  import opened Wrappers
  import opened Json
  import opened Record
  import opened Storage

  function Texts(record: string, spans: seq<Span>): seq<string>
    requires forall i :: 0 <= i < |spans| ==> InRange(spans[i], record)
  {
    seq(|spans|, i requires 0 <= i < |spans| => Slice(record, spans[i]))
  }

  /** The layouts a stored text can have. */
  ghost function StoredOf(record: string): Stored<string> {
    if IsBareBlock(record) then
      match ElementSpan(record, BLOCK)
      case Err => BrokenBare
      case Ok(None) => Corrupt
      case Ok(Some(span)) => ElementIsWellFormed(record, BLOCK); Bare(Slice(record, span))
    else
      match Split(record)
      case Err => Corrupt
      case Ok(spans) => SpansInRange(record); Combined(Texts(record, spans))
  }

  lemma SpansInRange(record: string)
    requires Split(record).Ok?
    ensures |Split(record).value| >= 2
    ensures forall i :: 0 <= i < |Split(record).value| ==> InRange(Split(record).value[i], record)
  {
    hide Split;
    var lead, inner, es, trail := SplitTree(record);
    SplitOver(record, lead, inner, es, trail);
    SplitAtLeastTwo(record);
  }

  lemma SplitAtLeastTwo(record: string)
    requires Split(record).Ok?
    ensures |Split(record).value| >= 2
  {
  }

  /** Reading an element of the layout is reading it off the text: same error, same miss, same slice. */
  lemma ElementIsTheSpan(record: string, idx: nat)
    ensures match (Element(StoredOf(record), idx), ElementSpan(record, idx))
            case (Err, Err) => true
            case (Ok(None), Ok(None)) => true
            case (Ok(Some(text)), Ok(Some(span))) => InRange(span, record) && Slice(record, span) == text
            case _ => false
  {
    hide Split, IsBareBlock, SkipValue, SkipWs, WellFormed;
    if IsBareBlock(record) {
      if ElementSpan(record, BLOCK).Ok? && ElementSpan(record, BLOCK).value.Some? {
        ElementIsWellFormed(record, BLOCK);
      }
    } else if Split(record).Ok? {
      SpansInRange(record);
    }
  }

  /** An encoded record is stored as its elements. */
  lemma EncodedIsCombined(elements: seq<string>)
    requires |elements| >= 2 && forall i :: 0 <= i < |elements| ==> WellFormed(elements[i])
    ensures StoredOf(Encode(elements)) == Combined(elements)
  {
    hide Split, IsBareBlock, SkipValue, SkipWs, WellFormed, Encode;
    var record := Encode(elements);
    forall idx: nat ensures if idx < |elements| then ReadsAs(record, idx, elements[idx])
                            else ElementSpan(record, idx) == Ok(None)
    {
      RecordRoundTrip(elements, idx);
    }
    RecordRoundTrip(elements, 0);
    SpansInRange(record);
    var spans := Split(record).value;
    assert ElementSpan(record, |elements|) == Ok(None);
    var beyond := if |spans| < |elements| then |spans| else 0;
    assert ReadsAs(record, beyond, elements[beyond]);
    assert |spans| == |elements|;
    forall i | 0 <= i < |spans| ensures Texts(record, spans)[i] == elements[i] {
      assert ReadsAs(record, i, elements[i]);
    }
  }

  /** A block stored alone, in the older layout, is a bare block whatever whitespace surrounds it. */
  lemma ObjectIsBare(lead: string, block: Value, trail: string)
    requires AllWs(lead) && AllWs(trail) && Valid(block) && (block.Empty? || block.Filled?) && block.isObject
    ensures StoredOf(lead + (Render(block) + trail)) == Bare(Render(block))
  {
    hide Split, IsBareBlock, SkipValue, SkipWs, WellFormed, Render, Valid, AllWs;
    RenderSplits(block, trail);
    BareObjectIsNotARecord(lead, block, trail, BLOCK);
  }
}
