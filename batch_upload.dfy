/**
 * The batch upload loop of upload_prices: a cursor into products_data
 * moves forward by the number of products the server reports as imported,
 * and each request carries the window of at most BatchSize entries that
 * starts at the cursor.
 *
 * The server is an oracle: `responses` lists the num_imported values it
 * answers, one per request, in order.
 */
module BatchUpload {
  import opened PriceGrouping

  /** batch_size: the most product entries one request carries. */
  const BatchSize: nat := 1000

  function Min(a: int, b: int): int {
    if a <= b then a else b
  }

  function Sum(s: seq<nat>): nat {
    if s == [] then 0 else s[0] + Sum(s[1..])
  }

  /**
   * products_data[start_index:start_index + batch_size] while the loop
   * runs: a non-empty contiguous window beginning at the cursor, either
   * full or reaching the end of the list.
   */
  function Window(products: seq<ProductEntry>, start: nat): (batch: seq<ProductEntry>)
    requires start < |products|
    ensures 0 < |batch| <= BatchSize
    ensures |batch| == BatchSize || start + |batch| == |products|
    ensures start + |batch| <= |products| && batch == products[start..start + |batch|]
  {
    products[start..Min(start + BatchSize, |products|)]
  }

  /** What a run leaves behind: the final cursor and the batches sent, in order. */
  datatype Trace = Trace(cursor: nat, batches: seq<seq<ProductEntry>>)

  /**
   * The loop from cursor `start`, answered by `responses`: it stops when
   * the cursor reaches the end of the list or the answers run out.
   */
  function Run(products: seq<ProductEntry>, start: nat, responses: seq<nat>): (t: Trace)
    ensures start <= t.cursor
    ensures |t.batches| <= |responses|
    ensures t.cursor < |products| ==> |t.batches| == |responses|
    ensures forall i :: 0 <= i < |t.batches| ==> 0 < |t.batches[i]| <= BatchSize
    decreases |responses|
  {
    if start >= |products| || responses == [] then Trace(start, [])
    else
      var rest := Run(products, start + responses[0], responses[1..]);
      Trace(rest.cursor, [Window(products, start)] + rest.batches)
  }

  /** The prefix of every batch that the server reports as imported, concatenated. */
  function Accepted(batches: seq<seq<ProductEntry>>, responses: seq<nat>): seq<ProductEntry> {
    if batches == [] || responses == [] then []
    else batches[0][..Min(responses[0], |batches[0]|)] + Accepted(batches[1..], responses[1..])
  }

  /** Every batch sent was answered with a count between `least` and the batch's size. */
  predicate AnsweredWithin(batches: seq<seq<ProductEntry>>, responses: seq<nat>, least: nat) {
    |batches| <= |responses| &&
    forall i :: 0 <= i < |batches| ==> least <= responses[i] <= |batches[i]|
  }

  // ---------------------------------------------------------------------
  // The upload loop
  // ---------------------------------------------------------------------

  /**
   * The while loop over start_index: send the window at the cursor, read
   * num_imported, advance the cursor by it. Returns the final cursor and
   * every batch sent.
   */
  method UploadBatches(products: seq<ProductEntry>, responses: seq<nat>)
    returns (startIndex: nat, sent: seq<seq<ProductEntry>>)
    ensures Trace(startIndex, sent) == Run(products, 0, responses)
  {
    startIndex := 0;
    sent := [];
    var calls := 0;
    ghost var whole := Run(products, 0, responses);
    while startIndex < |products| && calls < |responses|
      invariant calls <= |responses|
      invariant Run(products, startIndex, responses[calls..]).cursor == whole.cursor
      invariant sent + Run(products, startIndex, responses[calls..]).batches == whole.batches
      decreases |responses| - calls
    {
      var batch := products[startIndex..Min(startIndex + BatchSize, |products|)];
      var numImported := responses[calls];
      RunStep(products, startIndex, responses[calls..]);
      assert responses[calls..][0] == numImported && responses[calls..][1..] == responses[calls + 1..];
      sent := sent + [batch];
      calls := calls + 1;
      startIndex := startIndex + numImported;
    }
    RunStop(products, startIndex, responses[calls..]);
  }

  // ---------------------------------------------------------------------
  // Properties of the loop
  // ---------------------------------------------------------------------

  /** One turn of the loop: send the window at the cursor, then continue from the advanced cursor. */
  lemma RunStep(products: seq<ProductEntry>, start: nat, responses: seq<nat>)
    requires start < |products| && responses != []
    ensures Run(products, start, responses) ==
      Trace(Run(products, start + responses[0], responses[1..]).cursor,
            [Window(products, start)] + Run(products, start + responses[0], responses[1..]).batches)
  {
  }

  /** The loop's exit: at the end of the list, or with no answer left, nothing more is sent. */
  lemma RunStop(products: seq<ProductEntry>, start: nat, responses: seq<nat>)
    requires start >= |products| || responses == []
    ensures Run(products, start, responses) == Trace(start, [])
  {
  }

  /** Dropping the first batch and its answer keeps the answers within bounds. */
  lemma AnsweredTail(w: seq<ProductEntry>, bs: seq<seq<ProductEntry>>, responses: seq<nat>, least: nat)
    requires AnsweredWithin([w] + bs, responses, least)
    ensures responses != [] && least <= responses[0] <= |w|
    ensures AnsweredWithin(bs, responses[1..], least)
  {
    assert ([w] + bs)[0] == w;
    forall i | 0 <= i < |bs| ensures least <= responses[1..][i] <= |bs[i]| {
      assert ([w] + bs)[i + 1] == bs[i];
    }
  }

  /**
   * One step of the import: when the batches after the window at the cursor
   * import the list from cursor + n on, adding the window with answer n
   * imports the list from the cursor on.
   */
  lemma ImportsStep(products: seq<ProductEntry>, start: nat, bs: seq<seq<ProductEntry>>, responses: seq<nat>)
    requires start < |products| && responses != [] && responses[0] <= |Window(products, start)|
    requires Accepted(bs, responses[1..]) == products[start + responses[0]..]
    ensures Accepted([Window(products, start)] + bs, responses) == products[start..]
  {
    var w := Window(products, start);
    var n := responses[0];
    assert ([w] + bs)[1..] == bs;
    assert Accepted([w] + bs, responses) == w[..n] + Accepted(bs, responses[1..]);
    assert w[..n] == products[start..start + n];
    assert products[start..] == products[start..start + n] + products[start + n..];
  }

  /** The final cursor is the start plus every num_imported that was read. */
  lemma {:induction false} RunCursor(products: seq<ProductEntry>, start: nat, responses: seq<nat>)
    ensures Run(products, start, responses).cursor ==
      start + Sum(responses[..|Run(products, start, responses).batches|])
    decreases |responses|
  {
    if start < |products| && responses != [] {
      var t := Run(products, start, responses);
      var n := |t.batches|;
      RunCursor(products, start + responses[0], responses[1..]);
      assert responses[..n][1..] == responses[1..][..n - 1];
    }
  }

  /**
   * Request i sends the window at the cursor left by the first i answers,
   * and that cursor was still inside the list.
   */
  lemma {:induction false} RunBatchAt(products: seq<ProductEntry>, start: nat, responses: seq<nat>, i: nat)
    requires i < |Run(products, start, responses).batches|
    ensures start + Sum(responses[..i]) < |products|
    ensures Run(products, start, responses).batches[i] == Window(products, start + Sum(responses[..i]))
    decreases |responses|
  {
    assert start < |products| && responses != [];
    RunStep(products, start, responses);
    if i > 0 {
      RunBatchAt(products, start + responses[0], responses[1..], i - 1);
      assert responses[..i][1..] == responses[1..][..i - 1];
    }
  }

  /** An answer of zero leaves the cursor where it was: the next request resends the same batch. */
  lemma {:induction false} ZeroResends(products: seq<ProductEntry>, start: nat, responses: seq<nat>, i: nat)
    requires i + 1 < |Run(products, start, responses).batches|
    requires responses[i] == 0
    ensures Run(products, start, responses).batches[i + 1] == Run(products, start, responses).batches[i]
    decreases |responses|
  {
    if i > 0 {
      ZeroResends(products, start + responses[0], responses[1..], i - 1);
    }
  }

  /**
   * A server that keeps answering zero is never done: every answer is
   * spent resending the first batch and the cursor does not move.
   */
  lemma {:induction false} ZeroForever(products: seq<ProductEntry>, start: nat, responses: seq<nat>)
    requires start < |products|
    requires forall i :: 0 <= i < |responses| ==> responses[i] == 0
    ensures Run(products, start, responses).cursor == start
    ensures |Run(products, start, responses).batches| == |responses|
    ensures forall i :: 0 <= i < |responses| ==>
      Run(products, start, responses).batches[i] == Window(products, start)
    decreases |responses|
  {
    if responses != [] {
      ZeroForever(products, start, responses[1..]);
    }
  }

  /**
   * When every answer lies between 1 and the size of its batch and there
   * are enough answers, the run ends with the cursor exactly at the end of
   * the list, in at most one request per entry.
   */
  lemma {:induction false} RunCompletes(products: seq<ProductEntry>, start: nat, responses: seq<nat>)
    requires start <= |products|
    requires |products| - start <= |responses|
    requires AnsweredWithin(Run(products, start, responses).batches, responses, 1)
    ensures Run(products, start, responses).cursor == |products|
    ensures |Run(products, start, responses).batches| <= |products| - start
    decreases |responses|
  {
    if start < |products| {
      var next := start + responses[0];
      var rest := Run(products, next, responses[1..]);
      RunStep(products, start, responses);
      AnsweredTail(Window(products, start), rest.batches, responses, 1);
      RunCompletes(products, next, responses[1..]);
    }
  }

  /**
   * Under the same answers, the imported prefixes of the batches put
   * together are the list from the start cursor on: no entry is skipped
   * and none is reported imported twice.
   */
  lemma {:induction false} RunImportsAll(products: seq<ProductEntry>, start: nat, responses: seq<nat>)
    requires start <= |products|
    requires |products| - start <= |responses|
    requires AnsweredWithin(Run(products, start, responses).batches, responses, 1)
    ensures Accepted(Run(products, start, responses).batches, responses) == products[start..]
    decreases |responses|
  {
    if start < |products| {
      var next := start + responses[0];
      var rest := Run(products, next, responses[1..]);
      var w := Window(products, start);
      RunStep(products, start, responses);
      AnsweredTail(w, rest.batches, responses, 1);
      RunImportsAll(products, next, responses[1..]);
      ImportsStep(products, start, rest.batches, responses);
    } else {
      assert products[start..] == [];
    }
  }

  /**
   * When the server imports every batch whole, the run needs exactly one
   * request per BatchSize entries, rounded up.
   */
  lemma {:induction false} FullAcceptanceCalls(products: seq<ProductEntry>, start: nat, responses: seq<nat>)
    requires start <= |products|
    requires (|products| - start + BatchSize - 1) / BatchSize <= |responses|
    requires forall i :: 0 <= i < |Run(products, start, responses).batches| ==>
      responses[i] == |Run(products, start, responses).batches[i]|
    ensures Run(products, start, responses).cursor == |products|
    ensures |Run(products, start, responses).batches| == (|products| - start + BatchSize - 1) / BatchSize
    decreases |responses|
  {
    var t := Run(products, start, responses);
    if start < |products| {
      var next := start + responses[0];
      var rest := Run(products, next, responses[1..]);
      assert t.batches[0] == Window(products, start);
      assert t.batches[1..] == rest.batches;
      forall i | 0 <= i < |rest.batches|
        ensures responses[1..][i] == |rest.batches[i]|
      {
        assert rest.batches[i] == t.batches[i + 1];
      }
      FullAcceptanceCalls(products, next, responses[1..]);
    }
  }

  /**
   * While no answer exceeds what its batch carried, the cursor never
   * passes the end of the list.
   */
  lemma {:induction false} CursorBounded(products: seq<ProductEntry>, start: nat, responses: seq<nat>)
    requires start <= |products|
    requires AnsweredWithin(Run(products, start, responses).batches, responses, 0)
    ensures Run(products, start, responses).cursor <= |products|
    decreases |responses|
  {
    if start < |products| && responses != [] {
      var rest := Run(products, start + responses[0], responses[1..]);
      RunStep(products, start, responses);
      AnsweredTail(Window(products, start), rest.batches, responses, 0);
      CursorBounded(products, start + responses[0], responses[1..]);
    }
  }

  /**
   * num_imported is never checked against the batch: an answer larger
   * than what remains moves the cursor past the end and the loop stops.
   */
  lemma OverReportOvershoots(products: seq<ProductEntry>, start: nat, extra: nat)
    requires start < |products|
    ensures Run(products, start, [|products| - start + extra + 1]).cursor > |products|
  {
  }
}
