/**
 * The durable event log of one generation run: which events a list of provider
 * deltas leaves behind, and where in the log each of them sits.
 */
module GenerationLog {
  import Base
  import opened Text

  /** Ids are drawn from a counter that stands for the kernel's uuid source. */
  type Id = nat

  /** A provider error as stored: its code, and the run or the step/provider/model it names. */
  datatype ErrorDto = ErrorDto(code: string, run: Base.Option<Id>, detail: Base.Option<string>)

  /** An assistant message row (`messages`), also the payload of the completed event. */
  datatype Message = Message(chat: Id, content: string, sequence: int, run: Base.Option<Id>)

  datatype Event =
    | Delta(text: string)
    | Checkpoint(sequence: int, partialLength: int)
    | Completed(id: Id, finalMessage: Message)
    | Failed(error: ErrorDto)
    | Cancelled

  /** The delta payloads of a log, in order. */
  function DeltaTexts(log: seq<Event>): (ts: seq<string>)
    ensures |ts| <= |log|
  {
    if log == [] then []
    else
      var last := log[|log| - 1];
      DeltaTexts(log[..|log| - 1]) + if last.Delta? then [last.text] else []
  }

  /** The log `ds` produces: every delta, and a checkpoint after each fourth one. */
  function Render(ds: seq<string>): seq<Event> {
    if ds == [] then []
    else
      var log := Render(ds[..|ds| - 1]) + [Delta(ds[|ds| - 1])];
      if |ds| % 4 == 0 then log + [Checkpoint(|log|, TotalBytes(ds))] else log
  }

  lemma {:induction false} DeltaTextsAppend(a: seq<Event>, b: seq<Event>)
    ensures DeltaTexts(a + b) == DeltaTexts(a) + DeltaTexts(b)
  {
    if b == [] {
      assert a + b == a;
    } else {
      DeltaTextsAppend(a, b[..|b| - 1]);
      assert (a + b)[..|a + b| - 1] == a + b[..|b| - 1];
    }
  }

  /** Reading a log back gives the deltas it was written from. */
  lemma {:induction false} DeltaTextsOfRender(ds: seq<string>)
    ensures DeltaTexts(Render(ds)) == ds
  {
    if ds != [] {
      var init, t := ds[..|ds| - 1], ds[|ds| - 1];
      DeltaTextsOfRender(init);
      DeltaTextsAppend(Render(init), [Delta(t)]);
      if |ds| % 4 == 0 {
        var log := Render(init) + [Delta(t)];
        DeltaTextsAppend(log, [Checkpoint(|log|, TotalBytes(ds))]);
      }
    }
  }

  /** `n` deltas take `n + n/4` sequence numbers. */
  lemma {:induction false} RenderLength(ds: seq<string>)
    ensures |Render(ds)| == |ds| + |ds| / 4
  {
    if ds != [] {
      RenderLength(ds[..|ds| - 1]);
    }
  }

  /** More deltas only extend the log. */
  lemma {:induction false} RenderPrefix(ds: seq<string>, n: nat)
    requires n <= |ds|
    ensures Render(ds[..n]) <= Render(ds)
  {
    if n < |ds| {
      RenderPrefix(ds[..|ds| - 1], n);
      assert ds[..|ds| - 1][..n] == ds[..n];
    } else {
      assert ds[..n] == ds;
    }
  }

  /** Delta `i` sits at sequence `i + i/4`. */
  lemma DeltaPosition(ds: seq<string>, i: nat)
    requires i < |ds|
    ensures i + i / 4 < |Render(ds)| && Render(ds)[i + i / 4] == Delta(ds[i])
  {
    RenderLength(ds[..i]);
    RenderPrefix(ds, i + 1);
    assert ds[..i + 1][..i] == ds[..i];
    assert Render(ds[..i + 1])[i + i / 4] == Delta(ds[i]);
  }

  /** Checkpoint `k` sits at `5k - 1`, names itself, and counts the bytes of the first `4k` deltas. */
  lemma CheckpointPosition(ds: seq<string>, k: nat)
    requires 1 <= k <= |ds| / 4
    ensures 5 * k - 1 < |Render(ds)|
    ensures Render(ds)[5 * k - 1] == Checkpoint(5 * k - 1, TotalBytes(ds[..4 * k]))
  {
    var init := ds[..4 * k][..4 * k - 1];
    RenderLength(init);
    RenderPrefix(ds, 4 * k);
    assert Render(ds[..4 * k])[5 * k - 1] == Checkpoint(5 * k - 1, TotalBytes(ds[..4 * k]));
  }

  /** The rows one committed delta adds: the delta and, on every fourth, its checkpoint. */
  function DeltaRows(ds: seq<string>, text: string): (rows: seq<Event>)
    ensures 1 <= |rows| <= 2
  {
    if |ds| % 4 == 3
    then [Delta(text), Checkpoint(|ds| + |ds| / 4 + 1, TotalBytes(ds) + ByteLen(text))]
    else [Delta(text)]
  }

  lemma RenderUnfolds(ds: seq<string>)
    requires ds != []
    ensures var init, last := ds[..|ds| - 1], ds[|ds| - 1]; var log := Render(init) + [Delta(last)];
      && Render(ds) == (if |ds| % 4 == 0 then log + [Checkpoint(|log|, TotalBytes(ds))] else log)
      && TotalBytes(ds) == TotalBytes(init) + ByteLen(last)
  {
    hide ByteLen;
  }

  lemma RenderMore(ds: seq<string>, text: string, more: seq<string>)
    requires more != [] && more[..|more| - 1] == ds && more[|more| - 1] == text
    ensures var log := Render(ds) + [Delta(text)];
      Render(more) == if |ds| % 4 == 3 then log + [Checkpoint(|log|, TotalBytes(more))] else log
    ensures TotalBytes(more) == TotalBytes(ds) + ByteLen(text)
  {
    hide *;
    RenderUnfolds(more);
  }

  lemma Two(a: seq<Event>, x: Event, y: Event)
    ensures a + [x] + [y] == a + [x, y]
  {
  }

  /** Appending those rows keeps the log the rendering of its deltas. */
  lemma DeltaRowsRender(ds: seq<string>, text: string)
    ensures Render(ds + [text]) == Render(ds) + DeltaRows(ds, text)
    ensures DeltaTexts(DeltaRows(ds, text)) == [text]
  {
    hide Render, TotalBytes, ByteLen, DeltaTexts;
    DeltaRowsText(ds, text);
    Base.FrontOfMore(ds, text);
    RenderMore(ds, text, ds + [text]);
    RenderLength(ds);
    Two(Render(ds), Delta(text), Checkpoint(|ds| + |ds| / 4 + 1, TotalBytes(ds) + ByteLen(text)));
  }

  lemma DeltaRowsText(ds: seq<string>, text: string)
    ensures DeltaTexts(DeltaRows(ds, text)) == [text]
  {
    hide TotalBytes, ByteLen;
    OneRow(Delta(text));
    if |ds| % 4 == 3 {
      var note := Checkpoint(|ds| + |ds| / 4 + 1, TotalBytes(ds) + ByteLen(text));
      OneRow(note);
      DeltaTextsAppend([Delta(text)], [note]);
      Two([], Delta(text), note);
    }
  }

  lemma OneRow(e: Event)
    ensures DeltaTexts([e]) == if e.Delta? then [e.text] else []
  {
    assert [e][..0] == [];
  }
}
