/** The chunked writer: a data sink that a content provider drives, over a stream that may take any
    part of what it is given. */
module ChunkedWriters {
  import opened ChunkedSpec
  import opened OutStreams
  import opened Text
  import ChunkedRoundTrip

  /** `from_i_to_hex`. */
  method FromIToHex(n: nat) returns (ret: string)
    ensures ret == HexText(n)
  {
    ret := "";
    var m := n;
    ret := [LowerHex(m % 16)] + ret;
    m := m / 16;
    while m > 0
      invariant HexText(n) == (if m > 0 then HexText(m) else "") + ret
    {
      Assoc(if m / 16 > 0 then HexText(m / 16) else "", [LowerHex(m % 16)], ret);
      ret := [LowerHex(m % 16)] + ret;
      m := m / 16;
    }
  }

  // ----- what a provider does with the sink

  datatype Action = Write(text: string) | Done(trailers: Trailers)

  /** One call of the content provider: the sink operations it performs, and its verdict. */
  datatype Turn = Turn(actions: seq<Action>, result: bool)

  function Emit(a: Action): string {
    match a
    case Write(d) => if d == "" then "" else Chunk(d)
    case Done(trailers) => LastChunk(trailers)
  }

  function EmitAll(actions: seq<Action>): string {
    if actions == [] then "" else Emit(actions[0]) + EmitAll(actions[1..])
  }

  predicate MoreAfter(a: Action) {
    a.Write? && a.text != ""
  }

  /** Whether data is still awaited after these actions. */
  function Available(actions: seq<Action>, before: bool): bool {
    if actions == [] then before else Available(actions[1..], MoreAfter(actions[0]))
  }

  /** The sink operations carried out when the provider is called until it is done, gives up, or the
      server shuts down (the end of the list). */
  function Performed(turns: seq<Turn>, available: bool): seq<Action> {
    if !available || turns == [] then []
    else turns[0].actions +
         (if turns[0].result then Performed(turns[1..], Available(turns[0].actions, available)) else [])
  }

  function Succeeds(turns: seq<Turn>, available: bool): bool {
    !available || turns == [] ||
    (turns[0].result && Succeeds(turns[1..], Available(turns[0].actions, available)))
  }

  lemma {:induction false} EmitAppend(a: seq<Action>, b: seq<Action>)
    ensures EmitAll(a + b) == EmitAll(a) + EmitAll(b)
  {
    if a == [] {
      assert a + b == b;
    } else {
      assert (a + b)[1..] == a[1..] + b;
      EmitAppend(a[1..], b);
      Assoc(Emit(a[0]), EmitAll(a[1..]), EmitAll(b));
    }
  }

  class DataSink {
    const strm: OutStream
    var ok: bool
    var dataAvailable: bool

    constructor (strm: OutStream)
      requires !strm.failed
      ensures this.strm == strm && ok && dataAvailable
    {
      this.strm := strm;
      ok, dataAvailable := true, true;
    }

    method Write(d: string) returns (r: bool)
      requires ok ==> !strm.failed
      modifies this, strm
      ensures (ok ==> !strm.failed) && (!ok && old(ok) ==> strm.failed) && (!old(ok) ==> !ok && strm.failed == old(strm.failed))
      ensures ok ==> strm.written == old(strm.written) + Emit(Action.Write(d)) && dataAvailable == MoreAfter(Action.Write(d))
    {
      if ok {
        dataAvailable := |d| > 0;
        if d != "" {
          var size := FromIToHex(|d|);
          var chunk := size + CRLF + d + CRLF;
          ok := strm.WriteData(chunk);
        } else {
          assert strm.written + "" == strm.written;
        }
      }
      r := ok;
    }

    /** The last chunk, the trailer lines and the final empty line; writing goes on after a failure. */
    method DoneWithTrailer(trailers: Trailers)
      requires ok ==> !strm.failed
      modifies this, strm
      ensures (ok ==> !strm.failed) && (!ok && old(ok) ==> strm.failed) && (!old(ok) ==> !ok && strm.failed == old(strm.failed))
      ensures ok ==> strm.written == old(strm.written) + Emit(Done(trailers)) && dataAvailable == MoreAfter(Done(trailers))
    {
      if !ok {
        return;
      }
      dataAvailable := false;
      var taken := strm.WriteData("0" + CRLF);
      if !taken {
        ok := false;
      }
      for i := 0 to |trailers|
        invariant (ok ==> !strm.failed) && (!ok ==> strm.failed) && !dataAvailable
        invariant ok ==> strm.written + TrailerLines(trailers[i..]) == old(strm.written) + ("0" + CRLF + TrailerLines(trailers))
      {
        TrailerTurn(trailers, i);
        Assoc(strm.written, TrailerLine(trailers[i]), TrailerLines(trailers[i + 1..]));
        taken := strm.WriteData(trailers[i].0 + ": " + trailers[i].1 + CRLF);
        if !taken {
          ok := false;
        }
      }
      assert TrailerLines(trailers[|trailers|..]) == "" && strm.written + "" == strm.written;
      ghost var body := "0" + CRLF + TrailerLines(trailers);
      Assoc(old(strm.written), body, CRLF);
      taken := strm.WriteData(CRLF);
      if !taken {
        ok := false;
      }
    }

    method Perform(a: Action)
      requires ok ==> !strm.failed
      modifies this, strm
      ensures (ok ==> !strm.failed) && (!ok && old(ok) ==> strm.failed) && (!old(ok) ==> !ok && strm.failed == old(strm.failed))
      ensures ok ==> strm.written == old(strm.written) + Emit(a) && dataAvailable == MoreAfter(a)
    {
      match a {
        case Write(d) => var _ := Write(d);
        case Done(trailers) => DoneWithTrailer(trailers);
      }
    }
  }

  lemma TrailerTurn(trailers: Trailers, i: nat)
    requires i < |trailers|
    ensures TrailerLines(trailers[i..]) == TrailerLine(trailers[i]) + TrailerLines(trailers[i + 1..])
  {
    assert trailers[i..][0] == trailers[i] && trailers[i..][1..] == trailers[i + 1..];
  }

  lemma {:induction false} ActionTurn(actions: seq<Action>, i: nat, before: bool)
    requires i < |actions|
    ensures EmitAll(actions[..i + 1]) == EmitAll(actions[..i]) + Emit(actions[i])
    ensures Available(actions[..i + 1], before) == MoreAfter(actions[i])
    decreases i
  {
    assert actions[..i + 1] == actions[..i] + [actions[i]];
    assert [actions[i]][1..] == [] && Emit(actions[i]) + "" == Emit(actions[i]);
    EmitAppend(actions[..i], [actions[i]]);
    if i > 0 {
      assert actions[..i + 1][1..] == actions[1..][..i];
      ActionTurn(actions[1..], i - 1, MoreAfter(actions[0]));
    }
  }

  /** Runs one call of the content provider. */
  method RunTurn(sink: DataSink, turn: Turn)
    requires sink.ok && !sink.strm.failed
    modifies sink, sink.strm
    ensures sink.ok <==> !sink.strm.failed
    ensures sink.ok ==> sink.strm.written == old(sink.strm.written) + EmitAll(turn.actions)
                        && sink.dataAvailable == Available(turn.actions, old(sink.dataAvailable))
  {
    ghost var before := sink.strm.written;
    assert before + "" == before && turn.actions[..0] == [];
    for i := 0 to |turn.actions|
      invariant sink.ok ==> !sink.strm.failed
      invariant !sink.ok ==> sink.strm.failed
      invariant sink.ok ==> sink.strm.written == before + EmitAll(turn.actions[..i])
                            && sink.dataAvailable == Available(turn.actions[..i], old(sink.dataAvailable))
    {
      ActionTurn(turn.actions, i, old(sink.dataAvailable));
      Assoc(before, EmitAll(turn.actions[..i]), Emit(turn.actions[i]));
      sink.Perform(turn.actions[i]);
    }
    assert turn.actions[..|turn.actions|] == turn.actions;
  }

  /** Drives the provider until it is done. Unless the stream fails, exactly the operations performed are
      on the wire, and the verdict says whether the provider ever gave up. */
  method WriteContentChunked(strm: OutStream, turns: seq<Turn>) returns (r: bool)
    requires !strm.failed
    modifies strm
    ensures !strm.failed ==> strm.written == old(strm.written) + EmitAll(Performed(turns, true)) && r == Succeeds(turns, true)
    ensures strm.failed ==> !r
  {
    var sink := new DataSink(strm);
    var i := 0;
    ghost var before, done := strm.written, "";
    assert before + "" == before && turns[0..] == turns;
    while sink.dataAvailable && i < |turns|
      invariant i <= |turns| && sink.strm == strm && fresh(sink) && sink.ok && !strm.failed
      invariant strm.written == before + done
      invariant done + EmitAll(Performed(turns[i..], sink.dataAvailable)) == EmitAll(Performed(turns, true))
      invariant Succeeds(turns[i..], sink.dataAvailable) == Succeeds(turns, true)
    {
      var turn := turns[i];
      TurnUnfolds(turns, i);
      var writable := strm.WaitWritable();
      if !writable {
        return false;
      }
      RunTurn(sink, turn);
      if !sink.ok {
        return false;
      }
      Assoc(before, done, EmitAll(turn.actions));
      if !turn.result {
        assert done + EmitAll(turn.actions) == EmitAll(Performed(turns, true));
        return false;
      }
      ghost var rest := EmitAll(Performed(turns[i + 1..], sink.dataAvailable));
      Assoc(done, EmitAll(turn.actions), rest);
      done := done + EmitAll(turn.actions);
      i := i + 1;
    }
    assert done + "" == done;
    r := true;
  }

  lemma TurnUnfolds(turns: seq<Turn>, i: nat)
    requires i < |turns|
    ensures var t := turns[i];
            var rest := Performed(turns[i + 1..], Available(t.actions, true));
            && EmitAll(Performed(turns[i..], true)) == EmitAll(t.actions) + (if t.result then EmitAll(rest) else "")
            && Succeeds(turns[i..], true) == (t.result && Succeeds(turns[i + 1..], Available(t.actions, true)))
  {
    var t := turns[i];
    assert turns[i..][0] == t && turns[i..][1..] == turns[i + 1..];
    EmitAppend(t.actions, if t.result then Performed(turns[i + 1..], Available(t.actions, true)) else []);
  }

  // ----- ordinary providers

  function WriteActions(writes: seq<string>): seq<Action> {
    if writes == [] then [] else [Action.Write(writes[0])] + WriteActions(writes[1..])
  }

  function Flatten(turns: seq<Turn>): seq<Action> {
    if turns == [] then [] else turns[0].actions + Flatten(turns[1..])
  }

  /** No call of the provider reports failure. */
  predicate Willing(turns: seq<Turn>) {
    forall i :: 0 <= i < |turns| ==> turns[i].result
  }

  lemma {:induction false} WriteActionsAt(writes: seq<string>)
    ensures |WriteActions(writes)| == |writes|
    ensures forall i :: 0 <= i < |writes| ==> WriteActions(writes)[i] == Action.Write(writes[i])
  {
    if writes != [] {
      WriteActionsAt(writes[1..]);
    }
  }

  lemma {:induction false} AvailableIsLast(actions: seq<Action>, before: bool)
    ensures Available(actions, before) == if actions == [] then before else MoreAfter(actions[|actions| - 1])
  {
    if |actions| > 0 {
      AvailableIsLast(actions[1..], MoreAfter(actions[0]));
    }
  }

  /** A call of the provider whose last operation is a write of no bytes. */
  predicate EndsEmpty(t: Turn) {
    t.actions != [] && t.actions[|t.actions| - 1] == Action.Write("")
  }

  ghost predicate NoneEndsEmpty(turns: seq<Turn>) {
    forall i :: 0 <= i < |turns| ==> !EndsEmpty(turns[i])
  }

  lemma {:induction false} WriteActionsAppend(a: seq<string>, b: seq<string>)
    ensures WriteActions(a + b) == WriteActions(a) + WriteActions(b)
  {
    if a == [] {
      assert a + b == b;
    } else {
      assert (a + b)[1..] == a[1..] + b;
      WriteActionsAppend(a[1..], b);
    }
  }

  lemma SameSplit<T>(a: seq<T>, b: seq<T>, c: seq<T>, d: seq<T>)
    requires a + b == c + d && |a| == |c|
    ensures a == c && b == d
  {
    DropHead(a, b);
    DropHead(c, d);
    assert (a + b)[..|a|] == a && (c + d)[..|c|] == c;
  }

  /** Writes, then the end, cut after some of the writes. */
  lemma SplitEarly(first: seq<Action>, others: seq<Action>, writes: seq<string>, trailers: Trailers)
    requires first + others == WriteActions(writes) + [Done(trailers)] && |first| <= |writes|
    ensures first == WriteActions(writes[..|first|]) && others == WriteActions(writes[|first|..]) + [Done(trailers)]
  {
    var a, b := writes[..|first|], writes[|first|..];
    assert writes == a + b;
    WriteActionsAppend(a, b);
    WriteActionsAt(a);
    hide WriteActions;
    Assoc(WriteActions(a), WriteActions(b), [Done(trailers)]);
    SameSplit(first, others, WriteActions(a), WriteActions(b) + [Done(trailers)]);
  }

  /** Cut behind the end. */
  lemma SplitLate(first: seq<Action>, others: seq<Action>, writes: seq<string>, trailers: Trailers)
    requires first + others == WriteActions(writes) + [Done(trailers)] && |first| > |writes|
    ensures first == WriteActions(writes) + [Done(trailers)] && others == []
  {
    WriteActionsAt(writes);
    assert |first + others| == |writes| + 1;
    assert others == [] && first + [] == first;
  }

  lemma FlattenNothing(turns: seq<Turn>)
    requires Flatten(turns) == []
    ensures NoneEndsEmpty(turns)
  {
    if turns != [] {
      FlattenNothing(turns[1..]);
      forall i | 0 <= i < |turns| ensures !EndsEmpty(turns[i]) {
        assert i > 0 ==> turns[i] == turns[1..][i - 1];
      }
    }
  }

  lemma NoneEndsEmptyHead(turns: seq<Turn>)
    requires turns != []
    ensures NoneEndsEmpty(turns) <==> !EndsEmpty(turns[0]) && NoneEndsEmpty(turns[1..])
  {
    forall i | 0 < i < |turns| ensures turns[i] == turns[1..][i - 1] {
    }
    if !EndsEmpty(turns[0]) && NoneEndsEmpty(turns[1..]) {
      forall i | 0 <= i < |turns| ensures !EndsEmpty(turns[i]) {
        assert i > 0 ==> turns[i] == turns[1..][i - 1];
      }
    }
    if NoneEndsEmpty(turns) {
      forall i | 0 <= i < |turns[1..]| ensures !EndsEmpty(turns[1..][i]) {
        assert turns[1..][i] == turns[i + 1];
      }
    }
  }

  lemma PerformedTurn(turns: seq<Turn>)
    requires turns != [] && Willing(turns)
    ensures Willing(turns[1..])
    ensures var first := turns[0].actions;
            Performed(turns, true) == if Available(first, true) then first + Performed(turns[1..], true) else first
    ensures Flatten(turns) == turns[0].actions + Flatten(turns[1..])
  {
    if !Available(turns[0].actions, true) {
      assert turns[0].actions + [] == turns[0].actions;
    }
  }

  lemma StopsAtEnd(t: Turn, writes: seq<string>, trailers: Trailers)
    requires t.actions == WriteActions(writes) + [Done(trailers)]
    ensures !Available(t.actions, true) && !EndsEmpty(t)
  {
    AvailableIsLast(t.actions, true);
    assert t.actions[|t.actions| - 1] == Done(trailers);
  }

  /** All the operations, or the first `k` writes only. */
  function Carried(all: bool, writes: seq<string>, trailers: Trailers, k: nat): seq<Action>
    requires k <= |writes|
  {
    if all then WriteActions(writes) + [Done(trailers)] else WriteActions(writes[..k])
  }

  lemma CarriedMore(all: bool, writes: seq<string>, trailers: Trailers, n: nat, j: nat)
    requires n <= |writes| && j <= |writes[n..]|
    ensures WriteActions(writes[..n]) + Carried(all, writes[n..], trailers, j) == Carried(all, writes, trailers, n + j)
  {
    assert writes[..n] + writes[n..][..j] == writes[..n + j];
    assert writes[..n] + writes[n..] == writes;
    WriteActionsAppend(writes[..n], writes[n..][..j]);
    WriteActionsAppend(writes[..n], writes[n..]);
    hide WriteActions;
    Assoc(WriteActions(writes[..n]), WriteActions(writes[n..]), [Done(trailers)]);
  }

  ghost predicate Provides(turns: seq<Turn>, writes: seq<string>, trailers: Trailers) {
    Willing(turns) && Flatten(turns) == WriteActions(writes) + [Done(trailers)]
  }

  lemma StopsAtEmpty(t: Turn)
    requires EndsEmpty(t)
    ensures !Available(t.actions, true)
  {
    AvailableIsLast(t.actions, true);
  }

  lemma NotEmptyGoesOn(t: Turn, writes: seq<string>)
    requires t.actions == WriteActions(writes) && !EndsEmpty(t)
    ensures Available(t.actions, true)
  {
    AvailableIsLast(t.actions, true);
    WriteActionsAt(writes);
  }

  /** The call that declares the end. */
  lemma LastTurn(turns: seq<Turn>, writes: seq<string>, trailers: Trailers)
    requires Provides(turns, writes, trailers) && turns != [] && |turns[0].actions| > |writes|
    ensures Performed(turns, true) == Carried(NoneEndsEmpty(turns), writes, trailers, 0)
  {
    PerformedTurn(turns);
    NoneEndsEmptyHead(turns);
    SplitLate(turns[0].actions, Flatten(turns[1..]), writes, trailers);
    FlattenNothing(turns[1..]);
    StopsAtEnd(turns[0], writes, trailers);
    hide WriteActions, Flatten, NoneEndsEmpty, Available, Performed, EndsEmpty, Willing;
  }

  /** A call that ends with an empty write. */
  lemma EmptyTurn(turns: seq<Turn>, writes: seq<string>, trailers: Trailers)
    requires Provides(turns, writes, trailers) && turns != [] && |turns[0].actions| <= |writes| && EndsEmpty(turns[0])
    ensures Performed(turns, true) == Carried(NoneEndsEmpty(turns), writes, trailers, |turns[0].actions|)
  {
    PerformedTurn(turns);
    NoneEndsEmptyHead(turns);
    SplitEarly(turns[0].actions, Flatten(turns[1..]), writes, trailers);
    StopsAtEmpty(turns[0]);
    hide WriteActions, Flatten, NoneEndsEmpty, Available, Performed, EndsEmpty, Willing;
  }

  /** Any other call leaves the rest to the later ones. */
  lemma OtherTurn(turns: seq<Turn>, writes: seq<string>, trailers: Trailers)
    requires Provides(turns, writes, trailers) && turns != [] && |turns[0].actions| <= |writes| && !EndsEmpty(turns[0])
    ensures var first := turns[0].actions;
            && Provides(turns[1..], writes[|first|..], trailers)
            && Performed(turns, true) == WriteActions(writes[..|first|]) + Performed(turns[1..], true)
            && NoneEndsEmpty(turns) == NoneEndsEmpty(turns[1..])
  {
    PerformedTurn(turns);
    NoneEndsEmptyHead(turns);
    SplitEarly(turns[0].actions, Flatten(turns[1..]), writes, trailers);
    NotEmptyGoesOn(turns[0], writes[..|turns[0].actions|]);
    hide WriteActions, Flatten, NoneEndsEmpty, Available, Performed, EndsEmpty, Willing;
  }

  /** A provider that writes pieces and then declares itself done, over however many calls, has everything
      performed if no call ends with an empty write; if one does, only writes up to it are performed. */
  lemma {:induction false} PerformedIs(turns: seq<Turn>, writes: seq<string>, trailers: Trailers) returns (k: nat)
    requires Provides(turns, writes, trailers)
    ensures k <= |writes| && Performed(turns, true) == Carried(NoneEndsEmpty(turns), writes, trailers, k)
    decreases |turns|
  {
    assert turns != [];
    hide *;
    var n := |turns[0].actions|;
    if n > |writes| {
      k := 0;
      LastTurn(turns, writes, trailers);
    } else if EndsEmpty(turns[0]) {
      k := n;
      EmptyTurn(turns, writes, trailers);
    } else {
      OtherTurn(turns, writes, trailers);
      var j := PerformedIs(turns[1..], writes[n..], trailers);
      k := n + j;
      CarriedMore(NoneEndsEmpty(turns), writes, trailers, n, j);
    }
  }

  // ----- what is emitted is read back

  /** Writes of no bytes put nothing on the wire. */
  function Kept(writes: seq<string>): seq<string> {
    if writes == [] then [] else (if writes[0] == "" then [] else [writes[0]]) + Kept(writes[1..])
  }

  lemma {:induction false} EmitWrites(writes: seq<string>)
    requires forall i :: 0 <= i < |writes| ==> |writes[i]| < ULONG_MAX
    ensures EmitAll(WriteActions(writes)) == Chunks(Kept(writes))
    ensures Concat(Kept(writes)) == Concat(writes)
    ensures ChunkedRoundTrip.Writable(Kept(writes))
  {
    if writes != [] {
      EmitWrites(writes[1..]);
      if writes[0] == "" {
        assert Kept(writes) == Kept(writes[1..]);
      } else {
        assert Kept(writes)[1..] == Kept(writes[1..]);
      }
    }
  }

  /** Chunks without the last one are no complete coding. */
  lemma {:induction false} ChunksAloneFail(writes: seq<string>)
    requires ChunkedRoundTrip.Writable(writes)
    ensures !ReadChunked(Chunks(writes)).ok
  {
    if writes != [] {
      ChunkedRoundTrip.ChunkReads(writes[0], Chunks(writes[1..]));
      ChunksAloneFail(writes[1..]);
      hide ReadChunked;
    }
  }

  /** What the provider wrote is what the reader hands over, content, trailers, and not a byte more, if and
      only if no call of the provider ends with an empty write. Such a write ends the transfer without the
      last chunk: the writer still reports success, but what it emitted is no complete coding. */
  lemma WrittenIsRead(turns: seq<Turn>, writes: seq<string>, trailers: Trailers, rest: string)
    requires Provides(turns, writes, trailers)
    requires forall i :: 0 <= i < |writes| ==> |writes[i]| < ULONG_MAX
    requires ChunkedRoundTrip.Sendable(trailers)
    ensures var emitted := EmitAll(Performed(turns, true));
            && (NoneEndsEmpty(turns) ==>
                ReadChunked(emitted + rest) == Reading(true, Concat(writes), trailers, rest))
            && (!NoneEndsEmpty(turns) ==> !ReadChunked(emitted).ok)
            && Succeeds(turns, true)
  {
    var k := PerformedIs(turns, writes, trailers);
    AllSucceed(turns, true);
    if NoneEndsEmpty(turns) {
      EmitAppend(WriteActions(writes), [Done(trailers)]);
      EmitWrites(writes);
      assert [Done(trailers)][1..] == [] && LastChunk(trailers) + "" == LastChunk(trailers);
      assert EmitAll([Done(trailers)]) == LastChunk(trailers);
      ChunkedRoundTrip.RoundTrip(Kept(writes), trailers, rest);
    } else {
      EmitWrites(writes[..k]);
      ChunksAloneFail(Kept(writes[..k]));
    }
  }

  lemma {:induction false} AllSucceed(turns: seq<Turn>, available: bool)
    requires Willing(turns)
    ensures Succeeds(turns, available)
  {
    if turns != [] {
      AllSucceed(turns[1..], Available(turns[0].actions, available));
    }
  }

  /** A provider that ends its first call with an empty write, and is done in its second. */
  lemma EmptyWriteEndsEarly()
    ensures var turns := [Turn([Action.Write("a"), Action.Write("")], true), Turn([Done([])], true)];
            && Provides(turns, ["a", ""], []) && !NoneEndsEmpty(turns)
            && Succeeds(turns, true) && !ReadChunked(EmitAll(Performed(turns, true))).ok
  {
    var first: seq<Action> := [Action.Write("a"), Action.Write("")];
    var turns := [Turn(first, true), Turn([Done([])], true)];
    assert WriteActions([""]) == [Action.Write("")] by { assert [""][1..] == []; }
    assert ["a", ""][1..] == [""] && WriteActions(["a", ""]) == first;
    assert turns[1..] == [Turn([Done([])], true)] && turns[1..][1..] == [];
    assert Flatten(turns[1..]) == [Done([])] + [] == [Done([])];
    assert EndsEmpty(turns[0]);
    hide ReadChunked, EmitAll, Performed, WriteActions, Flatten, EndsEmpty;
    WrittenIsRead(turns, ["a", ""], [], "");
  }
}
