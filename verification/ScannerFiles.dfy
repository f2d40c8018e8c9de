/**
 What a scan finds in any file of values, damaged or not: the tokens of the file decide where each entry
 begins and ends, which entries are flagged, and where the scan takes up again after damage.
 */
module ScannerFiles {
  import opened Bytes
  import opened Wrappers
  import opened RangeIndex
  import opened Scanner

  /* ---------- The tokens of a file ---------- */

  // Blanks and commas stand between values.
  predicate IsFiller(b: Byte) {
    b == 9 || b == 10 || b == 13 || b == 32 || b == 44
  }

  function PastFillers(bytes: seq<Byte>, p: nat): (q: nat)
    requires p <= |bytes|
    ensures p <= q <= |bytes| && (q < |bytes| ==> !IsFiller(bytes[q])) && forall k :: p <= k < q ==> IsFiller(bytes[k])
    decreases |bytes| - p
  {
    if p == |bytes| || !IsFiller(bytes[p]) then p else PastFillers(bytes, p + 1)
  }

  // Just behind the quote that closes a string; a backslash takes the next byte with it.
  function AfterString(bytes: seq<Byte>, p: nat): (r: Option<nat>)
    requires p <= |bytes|
    ensures r.Some? ==> p < r.value <= |bytes|
    decreases |bytes| - p
  {
    if p == |bytes| then None
    else if bytes[p] == 34 then Some(p + 1)
    else if bytes[p] != 92 then AfterString(bytes, p + 1)
    else if p + 1 == |bytes| then None
    else AfterString(bytes, p + 2)
  }

  // How a container ends: with its bracket, with one that does not fit or is one too many, or not at all.
  datatype Ending = Closed(end: nat) | Spoilt(end: nat) | Cut

  // The brackets that are open at `p`, true for an object.
  function AfterContainer(bytes: seq<Byte>, p: nat, open: seq<bool>): (r: Ending)
    requires p <= |bytes| && open != []
    ensures !r.Cut? ==> p < r.end <= |bytes|
    decreases |bytes| - p
  {
    if p == |bytes| then Cut
    else
      var b, last := bytes[p], open[|open| - 1];
      if b == 34 then
        var e := AfterString(bytes, p + 1);
        if e == None then Cut else AfterContainer(bytes, e.value, open)
      else if b == 123 || b == 91 then
        if |open| >= 4096 then Spoilt(p + 1) else AfterContainer(bytes, p + 1, open + [b == 123])
      else if b == 125 || b == 93 then
        if last != (b == 125) then Spoilt(p + 1)
        else if |open| == 1 then Closed(p + 1)
        else AfterContainer(bytes, p + 1, open[..|open| - 1])
      else AfterContainer(bytes, p + 1, open)
  }

  predicate EndsScalar(b: Byte) {
    IsFiller(b) || b == 93 || b == 125
  }

  function AfterScalar(bytes: seq<Byte>, p: nat): (q: nat)
    requires p <= |bytes|
    ensures p <= q <= |bytes|
    decreases |bytes| - p
  {
    if p == |bytes| || EndsScalar(bytes[p]) then p else AfterScalar(bytes, p + 1)
  }

  // A line break behind `from` with only fillers between it and `p`.
  predicate BeginsLine(bytes: seq<Byte>, from: nat, p: nat)
    requires p <= |bytes|
  {
    exists l :: from <= l < p && bytes[l] == 10 && forall k :: l < k < p ==> IsFiller(bytes[k])
  }

  // Where the scan takes up again after damage up to `from`: at the first bracket that begins a line.
  function NextStart(bytes: seq<Byte>, from: nat, p: nat): (r: Option<nat>)
    requires p <= |bytes|
    ensures r.Some? ==> p <= r.value < |bytes|
    decreases |bytes| - p
  {
    if p == |bytes| then None
    else if (bytes[p] == 123 || bytes[p] == 91) && BeginsLine(bytes, from, p) then Some(p)
    else NextStart(bytes, from, p + 1)
  }

  /* ---------- The entries of a file ---------- */

  // From `p` on. Flags: 0, 1 for damage, 3 for a value the end of the file cuts off.
  function EntriesFrom(format: Format, bytes: seq<Byte>, p: nat, started: bool): seq<Range>
    requires p <= |bytes|
    decreases |bytes| - p, 1
  {
    var q := PastFillers(bytes, p);
    if q == |bytes| then []
    else if format == ArrayFile && !started then
      if bytes[q] == 0xef || bytes[q] == 0xbb || bytes[q] == 0xbf then EntriesFrom(format, bytes, q + 1, false)
      else if bytes[q] == 91 then EntriesFrom(format, bytes, q + 1, true)
      else [Range(q, q + 1, 1)] + EntriesAfter(format, bytes, q + 1, started)
    else if bytes[q] == 93 && format == ArrayFile then []
    else if bytes[q] == 123 || bytes[q] == 91 then
      match AfterContainer(bytes, q + 1, [bytes[q] == 123])
      case Closed(e) => [Range(q, e, 0)] + EntriesFrom(format, bytes, e, started)
      case Spoilt(e) => [Range(q, e, 1)] + EntriesAfter(format, bytes, e, started)
      case Cut => [Range(q, |bytes|, 3)]
    else if bytes[q] == 34 then
      var e := AfterString(bytes, q + 1);
      if e == None then [Range(q, |bytes|, 3)] else [Range(q, e.value, 0)] + EntriesFrom(format, bytes, e.value, started)
    else if bytes[q] == 125 || bytes[q] == 93 || bytes[q] == 58 then
      [Range(q, q + 1, 1)] + EntriesAfter(format, bytes, q + 1, started)
    else
      var e := AfterScalar(bytes, q + 1);
      [Range(q, e, 0)] + EntriesFrom(format, bytes, e, started)
  }

  function EntriesAfter(format: Format, bytes: seq<Byte>, from: nat, started: bool): seq<Range>
    requires from <= |bytes|
    decreases |bytes| - from, 2
  {
    var r := NextStart(bytes, from, from);
    if r == None then [] else EntriesFrom(format, bytes, r.value, started)
  }

  /* ---------- What becomes of a scan ---------- */

  // The error of the index, if it refused a range, and the ranges it took.
  function Out(s: State): (Option<AddError>, seq<Range>) {
    if s.Failed? then (Some(s.error), s.entries) else (None, s.entries)
  }

  // Ranges added one after another, up to one that is refused.
  function Added(entries: seq<Range>, more: seq<Range>): (Option<AddError>, seq<Range>)
    decreases |more|
  {
    if more == [] then (None, entries)
    else
      var refusal := Refusal(entries, more[0].start, more[0].end);
      if refusal.Some? then (refusal, entries) else Added(entries + [more[0]], more[1..])
  }

  // The rest of the file, and its end.
  function Rest(format: Format, s: State, bytes: seq<Byte>, p: nat): State
    requires p <= |bytes|
  {
    Finish(Feed(format, s, bytes[p..], p), |bytes|)
  }

  lemma RestStep(format: Format, s: State, bytes: seq<Byte>, p: nat)
    requires p < |bytes|
    ensures Rest(format, s, bytes, p) == Rest(format, Step(format, s, bytes[p], p), bytes, p + 1)
  {
    hide Step, Finish;
    var b := [bytes[p]];
    assert bytes[p..] == b + bytes[p + 1..];
    FeedAppend(format, s, b, bytes[p + 1..], p);
    assert Feed(format, s, b, p) == Step(format, s, bytes[p], p) by {
      assert b[..0] == [];
      NothingFed(format, s, p);
    }
  }

  lemma RestDone(format: Format, s: State, bytes: seq<Byte>)
    ensures Rest(format, s, bytes, |bytes|) == Finish(s, |bytes|)
  {
    assert bytes[|bytes|..] == [];
    NothingFed(format, s, |bytes|);
  }

  // A scan that is over.
  lemma {:induction false} RestOver(format: Format, s: State, bytes: seq<Byte>, p: nat)
    requires p <= |bytes| && (s.Failed? || (s.Values? && s.mode == Done))
    ensures Rest(format, s, bytes, p) == s
    decreases |bytes| - p
  {
    if p == |bytes| {
      RestDone(format, s, bytes);
    } else {
      RestStep(format, s, bytes, p);
      RestOver(format, s, bytes, p + 1);
    }
  }

  lemma FillersAre(b: Byte)
    ensures IsFiller(b) <==> Scanner.IsSpace(b) || b == COMMA
  {
  }

  lemma {:induction false} FillersPassed(format: Format, s: State, bytes: seq<Byte>, p: nat)
    requires p <= |bytes| && s.Values? && s.mode == Between
    ensures Rest(format, s, bytes, p) == Rest(format, s, bytes, PastFillers(bytes, p))
    decreases |bytes| - p
  {
    hide Rest;
    if p < |bytes| && IsFiller(bytes[p]) {
      FillersAre(bytes[p]);
      RestStep(format, s, bytes, p);
      FillersPassed(format, s, bytes, p + 1);
    }
  }

  lemma {:induction false} StringRest(format: Format, s: State, start: int, stack: seq<bool>, bytes: seq<Byte>, p: nat)
    requires p <= |bytes| && s.Values? && s.mode == InString(start, false, stack)
    ensures var e := AfterString(bytes, p);
            if e == None then Out(Rest(format, s, bytes, p)) == Added(s.entries, [Range(start, |bytes|, 3)])
            else if stack == [] then
              Rest(format, s, bytes, p) ==
              Rest(format, Record(s, start, e.value, 0, s.(mode := Between)), bytes, e.value)
            else Rest(format, s, bytes, p) == Rest(format, s.(mode := InContainer(start, stack)), bytes, e.value)
    decreases |bytes| - p
  {
    hide Rest, Refusal;
    if p == |bytes| {
      RestDone(format, s, bytes);
      CutAdded(s, start, |bytes|);
    } else {
      RestStep(format, s, bytes, p);
      if bytes[p] == 92 {
        var t := s.(mode := InString(start, true, stack));
        if p + 1 == |bytes| {
          RestDone(format, t, bytes);
          CutAdded(t, start, |bytes|);
        } else {
          RestStep(format, t, bytes, p + 1);
          StringRest(format, s, start, stack, bytes, p + 2);
        }
      } else if bytes[p] != 34 {
        StringRest(format, s, start, stack, bytes, p + 1);
      }
    }
  }

  lemma CutAdded(s: State, start: int, end: int)
    requires s.Values?
    ensures Out(Record(s, start, end, 3, s)) == Added(s.entries, [Range(start, end, 3)])
  {
    hide Refusal;
    var r := Range(start, end, 3);
    assert [r][0] == r && [r][1..] == [];
  }

  lemma {:induction false} ContainerRest(format: Format, s: State, start: int, stack: seq<bool>, bytes: seq<Byte>, p: nat)
    requires p <= |bytes| && stack != [] && s.Values? && s.mode == InContainer(start, stack)
    ensures match AfterContainer(bytes, p, stack)
            case Cut => Out(Rest(format, s, bytes, p)) == Added(s.entries, [Range(start, |bytes|, 3)])
            case Closed(e) =>
              Rest(format, s, bytes, p) == Rest(format, Record(s, start, e, 0, s.(mode := Between)), bytes, e)
            case Spoilt(e) =>
              Rest(format, s, bytes, p) == Rest(format, Record(s, start, e, 1, s.(mode := Skipping(false))), bytes, e)
    decreases |bytes| - p
  {
    hide Rest, Refusal, AfterString;
    if p == |bytes| {
      RestDone(format, s, bytes);
      CutAdded(s, start, |bytes|);
    } else {
      RestStep(format, s, bytes, p);
      var b := bytes[p];
      if b == 34 {
        var t := s.(mode := InString(start, false, stack));
        StringRest(format, t, start, stack, bytes, p + 1);
        var e := AfterString(bytes, p + 1);
        if e.Some? {
          ContainerRest(format, s, start, stack, bytes, e.value);
        }
      } else if b == 123 || b == 91 {
        if |stack| < 4096 {
          var more := stack + [b == 123];
          ContainerRest(format, s.(mode := InContainer(start, more)), start, more, bytes, p + 1);
        }
      } else if b == 125 || b == 93 {
        var inner := stack[..|stack| - 1];
        if stack[|stack| - 1] == (b == 125) && inner != [] {
          ContainerRest(format, s.(mode := InContainer(start, inner)), start, inner, bytes, p + 1);
        }
      } else {
        ContainerRest(format, s, start, stack, bytes, p + 1);
      }
    }
  }

  lemma {:induction false} ScalarRest(format: Format, s: State, start: int, bytes: seq<Byte>, p: nat)
    requires p <= |bytes| && s.Values? && s.mode == InScalar(start)
    ensures var e := AfterScalar(bytes, p);
            Out(Rest(format, s, bytes, p)) == Out(Rest(format, Record(s, start, e, 0, s.(mode := Between)), bytes, e))
    decreases |bytes| - p
  {
    hide Rest, Refusal, BetweenStep;
    if p == |bytes| {
      RestDone(format, s, bytes);
      RestDone(format, Record(s, start, p, 0, s.(mode := Between)), bytes);
    } else {
      RestStep(format, s, bytes, p);
      FillersAre(bytes[p]);
      if EndsScalar(bytes[p]) {
        RestStep(format, Record(s, start, p, 0, s.(mode := Between)), bytes, p);
      } else {
        ScalarRest(format, s, start, bytes, p + 1);
      }
    }
  }

  lemma LineGoesOn(bytes: seq<Byte>, from: nat, p: nat)
    requires from <= p < |bytes|
    ensures BeginsLine(bytes, from, p + 1) <==> bytes[p] == 10 || (IsFiller(bytes[p]) && BeginsLine(bytes, from, p))
  {
    if bytes[p] == 10 {
      assert from <= p < p + 1;
    }
  }

  lemma {:induction false} SkipRest(format: Format, s: State, from: nat, bytes: seq<Byte>, p: nat)
    requires from <= p <= |bytes| && s.Values? && s.mode == Skipping(BeginsLine(bytes, from, p))
    ensures var r := NextStart(bytes, from, p);
            Out(Rest(format, s, bytes, p)) ==
            if r == None then Out(s) else Out(Rest(format, s.(mode := Between), bytes, r.value))
    decreases |bytes| - p
  {
    hide Rest, Refusal, BetweenStep, BeginsLine;
    if p == |bytes| {
      RestDone(format, s, bytes);
    } else {
      RestStep(format, s, bytes, p);
      FillersAre(bytes[p]);
      LineGoesOn(bytes, from, p);
      if (bytes[p] == 123 || bytes[p] == 91) && BeginsLine(bytes, from, p) {
        RestStep(format, s.(mode := Between), bytes, p);
      } else {
        SkipRest(format, s.(mode := Skipping(BeginsLine(bytes, from, p + 1))), from, bytes, p + 1);
      }
    }
  }

  // A range is recorded, and the scan goes on.
  lemma RecordThen(format: Format, s: State, start: int, end: int, flags: nat, next: State, bytes: seq<Byte>, p: nat, more: seq<Range>)
    requires p <= |bytes| && s.Values? && next.Values? && flags < 256
    requires var entries := s.entries + [Range(start, end, flags)];
             Refusal(s.entries, start, end) == None ==>
               Out(Rest(format, Values(next.mode, next.started, entries), bytes, p)) == Added(entries, more)
    ensures Out(Rest(format, Record(s, start, end, flags, next), bytes, p)) == Added(s.entries, [Range(start, end, flags)] + more)
  {
    hide Refusal, Rest;
    var all := [Range(start, end, flags)] + more;
    assert all[1..] == more && all[0] == Range(start, end, flags);
    var refusal := Refusal(s.entries, start, end);
    if refusal.Some? {
      RestOver(format, Failed(refusal.value, s.entries), bytes, p);
    }
  }

  lemma NothingBegins(bytes: seq<Byte>, from: nat)
    requires from <= |bytes|
    ensures !BeginsLine(bytes, from, from)
  {
  }

  // Behind damage.
  lemma {:induction false} AfterRest(format: Format, s: State, bytes: seq<Byte>, from: nat)
    requires from <= |bytes| && s.Values? && s.mode == Skipping(false)
    ensures Out(Rest(format, s, bytes, from)) == Added(s.entries, EntriesAfter(format, bytes, from, s.started))
    decreases |bytes| - from, 2
  {
    hide Rest, Refusal, EntriesFrom;
    NothingBegins(bytes, from);
    SkipRest(format, s, from, bytes, from);
    var r := NextStart(bytes, from, from);
    if r.Some? {
      BetweenRest(format, s.(mode := Between), bytes, r.value);
    }
  }

  lemma {:induction false} DamageRest(format: Format, s: State, start: int, bytes: seq<Byte>, e: nat)
    requires e <= |bytes| && s.Values?
    ensures Out(Rest(format, Record(s, start, e, 1, s.(mode := Skipping(false))), bytes, e)) ==
            Added(s.entries, [Range(start, e, 1)] + EntriesAfter(format, bytes, e, s.started))
    decreases |bytes| - e, 3
  {
    hide Rest, Refusal, EntriesAfter;
    var next := s.(mode := Skipping(false));
    AfterRest(format, Values(next.mode, next.started, s.entries + [Range(start, e, 1)]), bytes, e);
    RecordThen(format, s, start, e, 1, next, bytes, e, EntriesAfter(format, bytes, e, s.started));
  }

  lemma {:induction false} FoundRest(format: Format, s: State, start: int, bytes: seq<Byte>, e: nat)
    requires e <= |bytes| && s.Values?
    ensures Out(Rest(format, Record(s, start, e, 0, s.(mode := Between)), bytes, e)) ==
            Added(s.entries, [Range(start, e, 0)] + EntriesFrom(format, bytes, e, s.started))
    decreases |bytes| - e, 2
  {
    hide Rest, Refusal, EntriesFrom;
    var next := s.(mode := Between);
    BetweenRest(format, Values(next.mode, next.started, s.entries + [Range(start, e, 0)]), bytes, e);
    RecordThen(format, s, start, e, 0, next, bytes, e, EntriesFrom(format, bytes, e, s.started));
  }

  // From the space between values.
  lemma {:induction false} BetweenRest(format: Format, s: State, bytes: seq<Byte>, p: nat)
    requires p <= |bytes| && s.Values? && s.mode == Between
    ensures Out(Rest(format, s, bytes, p)) == Added(s.entries, EntriesFrom(format, bytes, p, s.started))
    decreases |bytes| - p, 1
  {
    hide Rest, Refusal, EntriesFrom, Record, EntriesAfter;
    FillersPassed(format, s, bytes, p);
    var q := PastFillers(bytes, p);
    if q == |bytes| {
      RestDone(format, s, bytes);
      NoMoreEntries(format, bytes, p, s.started);
    } else {
      RestStep(format, s, bytes, q);
      FillersAre(bytes[q]);
      if format == ArrayFile && !s.started {
        HeadRest(format, s, bytes, p, q);
      } else {
        ElementRest(format, s, bytes, p, q);
      }
    }
  }

  lemma NoMoreEntries(format: Format, bytes: seq<Byte>, p: nat, started: bool)
    requires p <= |bytes| && PastFillers(bytes, p) == |bytes|
    ensures EntriesFrom(format, bytes, p, started) == []
  {
  }

  // Before the opening bracket of an array.
  lemma {:induction false} HeadRest(format: Format, s: State, bytes: seq<Byte>, p: nat, q: nat)
    requires p <= q < |bytes| && q == PastFillers(bytes, p) && s.Values? && s.mode == Between && format == ArrayFile && !s.started
    ensures Out(Rest(format, BetweenStep(format, s, bytes[q], q), bytes, q + 1)) ==
            Added(s.entries, EntriesFrom(format, bytes, p, s.started))
    decreases |bytes| - p, 0
  {
    hide Rest, Refusal, Record, EntriesAfter;
    FillersAre(bytes[q]);
    if bytes[q] == 0xef || bytes[q] == 0xbb || bytes[q] == 0xbf {
      BetweenRest(format, s, bytes, q + 1);
    } else if bytes[q] == 91 {
      BetweenRest(format, s.(started := true), bytes, q + 1);
    } else {
      DamageRest(format, s, q, bytes, q + 1);
    }
  }

  // At the first byte of an element, or what stands in its place.
  lemma {:induction false} ElementRest(format: Format, s: State, bytes: seq<Byte>, p: nat, q: nat)
    requires p <= q < |bytes| && q == PastFillers(bytes, p) && s.Values? && s.mode == Between && (format == ArrayFile ==> s.started)
    ensures Out(Rest(format, BetweenStep(format, s, bytes[q], q), bytes, q + 1)) ==
            Added(s.entries, EntriesFrom(format, bytes, p, s.started))
    decreases |bytes| - p, 0
  {
    hide Rest, Refusal, Record, EntriesAfter, AfterContainer, AfterString, AfterScalar;
    FillersAre(bytes[q]);
    var b := bytes[q];
    if b == 93 && format == ArrayFile {
      RestOver(format, s.(mode := Done), bytes, q + 1);
    } else if b == 123 || b == 91 {
      ContainerRest(format, s.(mode := InContainer(q, [b == 123])), q, [b == 123], bytes, q + 1);
      RecordMode(s, InContainer(q, [b == 123]));
      match AfterContainer(bytes, q + 1, [b == 123])
      case Closed(e) => FoundRest(format, s, q, bytes, e);
      case Spoilt(e) => DamageRest(format, s, q, bytes, e);
      case Cut =>
    } else if b == 34 {
      StringRest(format, s.(mode := InString(q, false, [])), q, [], bytes, q + 1);
      RecordMode(s, InString(q, false, []));
      var e := AfterString(bytes, q + 1);
      if e.Some? {
        FoundRest(format, s, q, bytes, e.value);
      }
    } else if b == 125 || b == 93 || b == 58 {
      DamageRest(format, s, q, bytes, q + 1);
    } else {
      ScalarRest(format, s.(mode := InScalar(q)), q, bytes, q + 1);
      RecordMode(s, InScalar(q));
      FoundRest(format, s, q, bytes, AfterScalar(bytes, q + 1));
    }
  }

  // What is recorded does not depend on where the scan stands.
  lemma RecordMode(s: State, mode: Mode)
    requires s.Values?
    ensures forall start: int, end: int, flags: nat, next: State ::
              Record(s.(mode := mode), start, end, flags, next) == Record(s, start, end, flags, next)
  {
    hide Refusal;
  }

  /* ---------- Whole files ---------- */

  // Each range, and each gap before one, has at most 4 GiB.
  predicate Fit(ranges: seq<Range>, last: int) {
    ranges == [] || (&& ranges[0].start - last <= 0xffff_ffff && ranges[0].end - ranges[0].start <= 0xffff_ffff
                     && Fit(ranges[1..], ranges[0].end))
  }

  lemma {:induction false} AllAdded(entries: seq<Range>, more: seq<Range>)
    ensures Added(entries, more).0 != Some(OutOfOrder) && Fit(more, LastEnd(entries)) ==> Added(entries, more) == (None, entries + more)
    ensures Added(entries, more).0 == None ==> Fit(more, LastEnd(entries))
    decreases |more|
  {
    if more != [] {
      AllAdded(entries + [more[0]], more[1..]);
      assert entries + [more[0]] + more[1..] == entries + more;
    } else {
      assert entries + more == entries;
    }
  }

  /**
   On any bytes at all, an array or sequence file has exactly the entries that its tokens make, each with
   its flags: a value that ends, one that is damaged, one that the end of the file cuts off. The scan fails
   exactly when one of them, or a gap, is larger than 4 GiB.
   */
  lemma {:induction false} AnyFileIsScanned(format: Format, bytes: seq<Byte>)
    requires format != JsonLines
    ensures var s := Finish(Feed(format, Initial(format), bytes, 0), |bytes|);
            var found := EntriesFrom(format, bytes, 0, false);
            && (s.Failed? <==> !Fit(found, 0)) && (s.Failed? ==> s.error == TooLarge)
            && (!s.Failed? ==> s.entries == found)
  {
    hide Feed, EntriesFrom, Refusal, Finish;
    var s0 := Initial(format);
    assert bytes[0..] == bytes;
    BetweenRest(format, s0, bytes, 0);
    AnyBytesInOrder(format, bytes);
    AllAdded([], EntriesFrom(format, bytes, 0, false));
    assert [] + EntriesFrom(format, bytes, 0, false) == EntriesFrom(format, bytes, 0, false);
  }
}
