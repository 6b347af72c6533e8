/** Incremental restoration of a stream cut into arbitrary chunks, measured against one-shot restoration. */
module StreamRestore {
  import opened Collections
  import opened Placeholder
  import opened Restore
  import opened MaskSession

  const PENDING_MAX := 64
  const DEFAULT_CHANNEL := "default"

  // ---- one push ----

  predicate ClosesAt(s: string, i: nat) {
    i + 1 < |s| && s[i] == s[i + 1] == '}'
  }

  /** Offset of the last "{{" in `s`, -1 without one. */
  function LastOpen(s: string, below: nat): (r: int)
    requires below <= |s|
    ensures -1 <= r < below
    ensures r >= 0 ==> OpensAt(s, r)
    ensures forall i: nat | r < i < below :: !OpensAt(s, i)
  {
    if below == 0 then -1
    else if OpensAt(s, below - 1) then below - 1
    else LastOpen(s, below - 1)
  }

  predicate HasClose(s: string) {
    exists i: nat | i < |s| :: ClosesAt(s, i)
  }

  /** What a scan hands on and what it holds back; "" held back stands for nothing pending. */
  datatype Scan = Scan(output: string, pending: string)

  function ScanAndRestore(buf: string, reverse: Reverse): Scan {
    var idx := LastOpen(buf, |buf|);
    if idx < 0 then
      if |buf| > 0 && buf[|buf| - 1] == '{' then
        Scan(RestoreString(buf[..|buf| - 1], reverse), buf[|buf| - 1..])
      else Scan(RestoreString(buf, reverse), "")
    else if HasClose(buf[idx..]) then Scan(RestoreString(buf, reverse), "")
    else Scan(RestoreString(buf[..idx], reverse), buf[idx..])
  }

  function PushSpec(pending: string, chunk: string, reverse: Reverse): Scan {
    var scan := ScanAndRestore(pending + chunk, reverse);
    if |scan.pending| > PENDING_MAX then Scan(scan.output + scan.pending, "") else scan
  }

  /** Number of trailing bytes a push holds back. */
  function Held(buf: string): (h: nat)
    ensures h <= |buf| && h <= PENDING_MAX
  {
    var idx := LastOpen(buf, |buf|);
    if idx < 0 then if |buf| > 0 && buf[|buf| - 1] == '{' then 1 else 0
    else if HasClose(buf[idx..]) || |buf| - idx > PENDING_MAX then 0
    else |buf| - idx
  }

  /** The last pair of opening braces, left open for at most 64 bytes. */
  predicate OpenTail(buf: string, i: nat) {
    && OpensAt(buf, i) && (forall j: nat | i < j < |buf| :: !OpensAt(buf, j))
    && !HasClose(buf[i..]) && |buf| - i <= 64
  }

  /** A push holds back an open pair of braces with what follows it, or a single brace at the end of a text without any pair,
      and nothing else. */
  lemma HeldMeans(buf: string)
    ensures forall i: nat | i < |buf| && OpenTail(buf, i) :: Held(buf) == |buf| - i
    ensures (forall j: nat | j < |buf| :: !OpensAt(buf, j)) && buf != "" && buf[|buf| - 1] == '{' ==> Held(buf) == 1
    ensures Held(buf) > 0 ==>
              || OpenTail(buf, |buf| - Held(buf))
              || (Held(buf) == 1 && buf[|buf| - 1] == '{' && forall j: nat | j < |buf| :: !OpensAt(buf, j))
  {
    hide HasClose;
    forall i: nat | i < |buf| && OpenTail(buf, i) ensures LastOpen(buf, |buf|) == i {
    }
  }

  lemma NoOpenTokenFree(s: string)
    requires forall i: nat | 0 < i < |s| :: !OpensAt(s, i)
    requires !HasClose(s)
    ensures TokenFree(s)
  {
    forall i: nat | i < |s| ensures TokenLen(s[i..]) == 0 {
      TokenBraces(s[i..]);
      var n := TokenLen(s[i..]);
      assert n != 0 ==> ClosesAt(s, i + n - 2);
    }
  }

  /** A push restores exactly the bytes it does not hold back, also where it gives up on an overlong prefix. */
  lemma PushEmits(pending: string, chunk: string, reverse: Reverse)
    ensures var buf := pending + chunk;
            var cut := |buf| - Held(buf);
            PushSpec(pending, chunk, reverse) == Scan(RestoreString(buf[..cut], reverse), buf[cut..])
  {
    hide RestoreString, TokenLen;
    var buf := pending + chunk;
    var idx := LastOpen(buf, |buf|);
    if idx >= 0 && !HasClose(buf[idx..]) && |buf| - idx > PENDING_MAX {
      OverflowEmits(buf, idx, reverse);
    }
    assert buf[..|buf|] == buf;
  }

  lemma OverflowEmits(buf: string, idx: nat, reverse: Reverse)
    requires OpensAt(buf, idx) && (forall i: nat | idx < i < |buf| :: !OpensAt(buf, i)) && !HasClose(buf[idx..])
    ensures RestoreString(buf[..idx], reverse) + buf[idx..] == RestoreString(buf, reverse)
  {
    var a, b := buf[..idx], buf[idx..];
    assert buf == a + b;
    forall i: nat | 0 < i < |b| ensures !OpensAt(b, i) {
      assert OpensAt(b, i) ==> OpensAt(buf, idx + i);
    }
    NoOpenTokenFree(b);
    TokenFreeRestores(b, reverse);
    forall i: nat | i < |a| ensures !Straddles(a, b, i) {
      NoStraddleIntoOpen(buf, idx, i);
    }
    RestoreConcat(a, b, reverse);
  }

  // ---- whole streams ----

  function Concat(chunks: seq<string>): string {
    if chunks == [] then "" else chunks[0] + Concat(chunks[1..])
  }

  /** Everything a client receives: the outputs of all pushes, then the flushed rest. */
  function Streamed(pending: string, chunks: seq<string>, reverse: Reverse): string
    decreases |chunks|
  {
    if chunks == [] then pending
    else
      var scan := PushSpec(pending, chunks[0], reverse);
      scan.output + Streamed(scan.pending, chunks[1..], reverse)
  }

  /** The push lets go of a lone trailing `{`: its last "{{" is closed, or open for more than 64 bytes. */
  predicate DropsBrace(buf: string) {
    |buf| > 0 && buf[|buf| - 1] == '{' && Held(buf) == 0
  }

  /** Some push lets go of the first brace of a placeholder whose remainder only arrives later. */
  predicate Loses(pending: string, chunks: seq<string>)
    decreases |chunks|
  {
    chunks != [] &&
    var buf := pending + chunks[0];
    || (DropsBrace(buf) && TokenLen("{" + Concat(chunks[1..])) != 0)
    || Loses(buf[|buf| - Held(buf)..], chunks[1..])
  }

  lemma {:induction false} HeldStraddle(buf: string, rest: string, i: nat)
    requires i < |buf| - Held(buf)
    requires TokenLen((buf + rest)[i..]) > |buf| - Held(buf) - i
    ensures i == |buf| - 1 && DropsBrace(buf) && TokenLen("{" + rest) == TokenLen((buf + rest)[i..])
  {
    var s := buf + rest;
    var idx := LastOpen(buf, |buf|);
    var n := TokenLen(s[i..]);
    TokenBraces(s[i..]);
    assert s[i] == s[i + 1] == '{';
    if i + 1 < |buf| {
      assert OpensAt(buf, i);
      assert OpensAt(s, idx);
      if i < idx {
        NoStraddleIntoOpen(s, idx, i);
      } else {
        UnclosedTail(buf, rest, i);
      }
      assert false;
    } else {
      assert s[i..] == "{" + rest;
    }
  }

  /** A placeholder cut off after its "{{" keeps its prefix pending. */
  lemma UnclosedTail(buf: string, rest: string, i: nat)
    requires OpensAt(buf, i) && i == LastOpen(buf, |buf|)
    ensures TokenLen((buf + rest)[i..]) <= |buf| - i || Held(buf) == |buf| - i
  {
    var t := (buf + rest)[i..];
    TokenBraces(t);
    var n := TokenLen(t);
    if n > |buf| - i {
      forall j: nat | j < |buf| - i ensures !ClosesAt(buf[i..], j) {
        assert t[j] == buf[i..][j];
        if j == 0 {
          assert buf[i..][0] == '{';
        }
      }
    }
  }

  /** Splitting the emitted part off loses nothing unless a dropped brace opened a placeholder. */
  lemma EmitSplit(buf: string, rest: string, reverse: Reverse)
    requires !(DropsBrace(buf) && TokenLen("{" + rest) != 0)
    ensures var cut := |buf| - Held(buf);
            RestoreString(buf + rest, reverse) ==
            RestoreString(buf[..cut], reverse) + RestoreString(buf[cut..] + rest, reverse)
  {
    var cut := |buf| - Held(buf);
    var a, b := buf[..cut], buf[cut..] + rest;
    assert buf + rest == a + b;
    forall i: nat | i < |a| ensures !Straddles(a, b, i) {
      if Straddles(a, b, i) {
        HeldStraddle(buf, rest, i);
      }
    }
    RestoreConcat(a, b, reverse);
  }

  /** A stream that loses no opening brace delivers the one-shot restoration of its concatenation. */
  lemma {:induction false} StreamedIsRestored(pending: string, chunks: seq<string>, reverse: Reverse)
    requires TokenFree(pending) && !Loses(pending, chunks)
    ensures Streamed(pending, chunks, reverse) == RestoreString(pending + Concat(chunks), reverse)
    decreases |chunks|
  {
    hide RestoreString, TokenLen, TokenFree, Held, PushSpec, DropsBrace;
    if chunks == [] {
      TokenFreeRestores(pending, reverse);
      assert pending + "" == pending;
    } else {
      var buf, rest := pending + chunks[0], Concat(chunks[1..]);
      var held := buf[|buf| - Held(buf)..];
      PushEmits(pending, chunks[0], reverse);
      EmitSplit(buf, rest, reverse);
      HeldTokenFree(buf);
      StreamedIsRestored(held, chunks[1..], reverse);
      assert pending + Concat(chunks) == buf + rest;
    }
  }

  lemma HeldTokenFree(buf: string)
    ensures TokenFree(buf[|buf| - Held(buf)..])
  {
    var idx := LastOpen(buf, |buf|);
    var held := buf[|buf| - Held(buf)..];
    if idx >= 0 && Held(buf) > 0 {
      forall i: nat | 0 < i < |held| ensures !OpensAt(held, i) {
        assert OpensAt(held, i) ==> OpensAt(buf, idx + i);
      }
      NoOpenTokenFree(held);
    }
  }

  // ---- the converse: a lost brace shows for some mapping ----

  /** Every placeholder occurring in `s` is registered with the empty original. */
  predicate Erases(reverse: Reverse, s: string) {
    forall i: nat | i < |s| && TokenLen(s[i..]) != 0 ::
      var t := s[i..][..TokenLen(s[i..])]; t in reverse && reverse[t] == ""
  }

  function Eraser(s: string): (r: Reverse)
    ensures Erases(r, s)
  {
    map i: nat | i < |s| && TokenLen(s[i..]) != 0 :: s[i..][..TokenLen(s[i..])] := ""
  }

  lemma ErasesSuffix(reverse: Reverse, s: string, k: nat)
    requires Erases(reverse, s) && k <= |s|
    ensures Erases(reverse, s[k..])
  {
    hide TokenLen;
    forall i: nat | i < |s[k..]| && TokenLen(s[k..][i..]) != 0
      ensures var t := s[k..][i..][..TokenLen(s[k..][i..])]; t in reverse && reverse[t] == ""
    {
      assert s[k..][i..] == s[k + i..];
    }
  }

  /** Cutting a text right before or right after the first brace of a "{{" splits no placeholder before it. */
  lemma SplitAroundOpen(a: string, t: string, reverse: Reverse)
    requires OpensAt(t, 0)
    ensures RestoreString(a + t, reverse) == RestoreString(a, reverse) + RestoreString(t, reverse)
    ensures RestoreString(a + "{", reverse) == RestoreString(a, reverse) + RestoreString("{", reverse)
  {
    hide RestoreString, TokenLen;
    assert OpensAt(a + t, |a|);
    forall i: nat | i < |a| ensures !Straddles(a, t, i) {
      NoStraddleIntoOpen(a + t, |a|, i);
    }
    forall i: nat | i < |a| ensures !Straddles(a, "{", i) {
      TokenBraces((a + "{")[i..]);
    }
    RestoreConcat(a, t, reverse);
    RestoreConcat(a, "{", reverse);
  }

  /** The bytes of a placeholder after its first brace restore to something of their own. */
  lemma TailRestores(rest: string, reverse: Reverse)
    requires TokenLen("{" + rest) != 0
    ensures var n := TokenLen("{" + rest);
            |RestoreString(rest, reverse)| >= |RestoreString(rest[n - 1..], reverse)|
  {
    hide RestoreString, TokenLen;
    var t, n := "{" + rest, TokenLen("{" + rest);
    var inner, after := rest[..n - 1], rest[n - 1..];
    assert rest == inner + after;
    forall i: nat | i < |inner| ensures !Straddles(inner, after, i) {
      assert t[0..] == t && t[i + 1..] == rest[i..];
      NoOverlap(t, 0, i + 1);
    }
    RestoreConcat(inner, after, reverse);
  }

  /** An erased placeholder leaves nothing behind. */
  lemma ErasedToken(s: string, i: nat, reverse: Reverse)
    requires i < |s| && Erases(reverse, s) && TokenLen(s[i..]) != 0
    ensures RestoreString(s[i..], reverse) == RestoreString(s[i..][TokenLen(s[i..])..], reverse)
  {
    RestoreStep(s[i..], reverse);
    hide TokenLen, RestoreString;
    assert Lookup(reverse, s[i..][..TokenLen(s[i..])]) == "";
  }

  /** The loss itself: the dropped brace and the rest of its placeholder both reach the client. */
  lemma DroppedBraceShows(buf: string, rest: string, reverse: Reverse)
    requires DropsBrace(buf) && TokenLen("{" + rest) != 0 && Erases(reverse, buf + rest)
    ensures |RestoreString(buf, reverse)| + |RestoreString(rest, reverse)| > |RestoreString(buf + rest, reverse)|
  {
    hide TokenLen, Held, RestoreString, Erases;
    var a, t, n := buf[..|buf| - 1], "{" + rest, TokenLen("{" + rest);
    DroppedBraceParts(buf, rest);
    SplitAroundOpen(a, t, reverse);
    TailRestores(rest, reverse);
    ErasedToken(buf + rest, |a|, reverse);
    LoneBrace(reverse);
  }

  lemma DroppedBraceParts(buf: string, rest: string)
    requires DropsBrace(buf)
    ensures var a, t := buf[..|buf| - 1], "{" + rest;
            buf + rest == a + t && (buf + rest)[|a|..] == t && buf == a + "{"
    ensures forall n | 1 <= n <= |rest| + 1 :: ("{" + rest)[n..] == rest[n - 1..]
  {
    hide Held;
  }

  lemma LoneBrace(reverse: Reverse)
    ensures RestoreString("{", reverse) == "{"
  {
    assert RestoreString("{"[1..], reverse) == "";
  }

  lemma {:induction false} ErasedStreamIsLonger(pending: string, chunks: seq<string>, reverse: Reverse)
    requires TokenFree(pending) && Erases(reverse, pending + Concat(chunks))
    ensures var whole := |RestoreString(pending + Concat(chunks), reverse)|;
            && |Streamed(pending, chunks, reverse)| >= whole
            && (Loses(pending, chunks) ==> |Streamed(pending, chunks, reverse)| > whole)
    decreases |chunks|
  {
    hide RestoreString, TokenLen, TokenFree, Held, PushSpec, DropsBrace, Erases;
    if chunks == [] {
      TokenFreeRestores(pending, reverse);
      assert pending + "" == pending;
    } else {
      var buf, rest := pending + chunks[0], Concat(chunks[1..]);
      var cut := |buf| - Held(buf);
      assert pending + Concat(chunks) == buf + rest;
      assert (buf + rest)[cut..] == buf[cut..] + rest;
      PushEmits(pending, chunks[0], reverse);
      HeldTokenFree(buf);
      ErasesSuffix(reverse, buf + rest, cut);
      ErasedStreamIsLonger(buf[cut..], chunks[1..], reverse);
      if DropsBrace(buf) && TokenLen("{" + rest) != 0 {
        DropsAll(buf);
        assert "" + rest == rest;
        DroppedBraceShows(buf, rest, reverse);
      } else {
        EmitSplit(buf, rest, reverse);
      }
    }
  }

  lemma DropsAll(buf: string)
    requires DropsBrace(buf)
    ensures buf[..|buf| - Held(buf)] == buf && buf[|buf| - Held(buf)..] == ""
  {
  }

  /** Streaming agrees with one-shot restoration for every mapping exactly when no push lets go of
      the first brace of a placeholder. */
  lemma StreamAgreesIff(chunks: seq<string>)
    ensures (forall reverse: Reverse :: Streamed("", chunks, reverse) == RestoreString(Concat(chunks), reverse))
       <==> !Loses("", chunks)
  {
    assert "" + Concat(chunks) == Concat(chunks);
    if Loses("", chunks) {
      var reverse := Eraser(Concat(chunks));
      ErasedStreamIsLonger("", chunks, reverse);
      assert Streamed("", chunks, reverse) != RestoreString(Concat(chunks), reverse);
    } else {
      forall reverse: Reverse ensures Streamed("", chunks, reverse) == RestoreString(Concat(chunks), reverse) {
        StreamedIsRestored("", chunks, reverse);
      }
    }
  }

  /** Chunk `k` starts between the two opening braces of a placeholder. */
  predicate SplitsOpening(chunks: seq<string>, k: nat)
    requires k <= |chunks|
  {
    var before := Concat(chunks[..k]);
    |before| > 0 && before[|before| - 1] == '{' && TokenLen("{" + Concat(chunks[k..])) != 0
  }

  lemma {:induction false} ConcatSplit(a: seq<string>, b: seq<string>)
    ensures Concat(a + b) == Concat(a) + Concat(b)
    decreases |a|
  {
    if a == [] {
      assert a + b == b;
    } else {
      assert (a + b)[1..] == a[1..] + b;
      ConcatSplit(a[1..], b);
    }
  }

  predicate Suffix(p: string, x: string) {
    |p| >= |x| && p[|p| - |x|..] == x
  }

  lemma SuffixGrows(p: string, c: string, pending: string)
    requires Suffix(p, pending)
    ensures Suffix(p + c, pending + c)
  {
  }

  lemma SuffixOfSuffix(p: string, buf: string, cut: nat)
    requires Suffix(p, buf) && cut <= |buf|
    ensures Suffix(p, buf[cut..]) && (buf != "" ==> p != "" && p[|p| - 1] == buf[|buf| - 1])
  {
  }

  lemma ConcatNext(all: seq<string>, k: nat)
    requires k < |all|
    ensures all[k..] != [] && all[k..][0] == all[k] && all[k..][1..] == all[k + 1..]
    ensures Concat(all[..k + 1]) == Concat(all[..k]) + all[k]
  {
    assert all[..k + 1] == all[..k] + [all[k]];
    ConcatSplit(all[..k], [all[k]]);
    assert Concat([all[k]]) == all[k] + "";
  }

  lemma LosesNext(pending: string, all: seq<string>, k: nat)
    requires k <= |all| && Loses(pending, all[k..])
    ensures k < |all|
    ensures var buf := pending + all[k];
            || (DropsBrace(buf) && TokenLen("{" + Concat(all[k + 1..])) != 0)
            || Loses(buf[|buf| - Held(buf)..], all[k + 1..])
  {
    hide TokenLen, Held, DropsBrace;
    assert all[k..][1..] == all[k + 1..];
  }

  lemma {:induction false} LosesAtSplit(all: seq<string>, k: nat, pending: string)
    requires k <= |all| && Loses(pending, all[k..]) && Suffix(Concat(all[..k]), pending)
    ensures exists j: nat :: j <= |all| && SplitsOpening(all, j)
    decreases |all| - k
  {
    LosesNext(pending, all, k);
    var buf := pending + all[k];
    var cut := |buf| - Held(buf);
    ConcatNext(all, k);
    hide TokenLen, Held, DropsBrace, Loses;
    SuffixGrows(Concat(all[..k]), all[k], pending);
    SuffixOfSuffix(Concat(all[..k + 1]), buf, cut);
    hide Concat, Suffix;
    if DropsBrace(buf) && TokenLen("{" + Concat(all[k + 1..])) != 0 {
      DropsBraceLast(buf);
      assert SplitsOpening(all, k + 1);
    } else {
      LosesAtSplit(all, k + 1, buf[cut..]);
    }
  }

  lemma DropsBraceLast(buf: string)
    requires DropsBrace(buf)
    ensures |buf| > 0 && buf[|buf| - 1] == '{'
  {
  }

  /** A chunking with no boundary between the opening braces of a placeholder is restored in full. */
  lemma UnsplitStreamsRestore(chunks: seq<string>, reverse: Reverse)
    requires forall k: nat | k <= |chunks| :: !SplitsOpening(chunks, k)
    ensures Streamed("", chunks, reverse) == RestoreString(Concat(chunks), reverse)
  {
    assert chunks[0..] == chunks && "" + Concat(chunks) == Concat(chunks);
    if Loses("", chunks) {
      LosesAtSplit(chunks, 0, "");
    }
    StreamedIsRestored("", chunks, reverse);
  }

  /** With nothing registered a stream passes through byte for byte, however it is cut. */
  lemma {:induction false} EmptyMappingIsIdentity(pending: string, chunks: seq<string>)
    ensures Streamed(pending, chunks, map[]) == pending + Concat(chunks)
    decreases |chunks|
  {
    hide RestoreString, TokenLen, Held, PushSpec;
    if chunks == [] {
      assert pending + "" == pending;
    } else {
      var buf := pending + chunks[0];
      var cut := |buf| - Held(buf);
      PushEmits(pending, chunks[0], map[]);
      NothingRegistered(buf[..cut]);
      EmptyMappingIsIdentity(buf[cut..], chunks[1..]);
      assert buf[..cut] + (buf[cut..] + Concat(chunks[1..])) == pending + Concat(chunks);
    }
  }

  lemma ClosedPairDrops()
    ensures DropsBrace("{{}}{")
  {
    var buf := "{{}}{";
    assert LastOpen(buf, 5) == 0;
    assert ClosesAt(buf, 2) && buf[0..] == buf;
  }

  const SPLIT_TOKEN := "{{A_bbbbbb}}"
  const LOSSY_CHUNKS := ["{{}}{", "{A_bbbbbb}}"]

  lemma SplitTokenLen()
    ensures TokenLen(SPLIT_TOKEN) == |SPLIT_TOKEN|
  {
    assert SPLIT_TOKEN[..|SPLIT_TOKEN|] == SPLIT_TOKEN;
    TokenLenExact(SPLIT_TOKEN);
  }

  lemma SplitTokenErased()
    ensures Erases(map[SPLIT_TOKEN := ""], "{{}}" + SPLIT_TOKEN)
  {
    hide TokenLen;
    var whole := "{{}}" + SPLIT_TOKEN;
    assert whole == "{{}}{{A_bbbbbb}}";
    forall i: nat | i < |whole| && TokenLen(whole[i..]) != 0
      ensures whole[i..][..TokenLen(whole[i..])] == SPLIT_TOKEN
    {
      TokenBraces(whole[i..]);
      SplitTokenLen();
      var t := whole[i..];
      assert t[0] == whole[i] && t[1] == whole[i + 1] && t[2] == whole[i + 2];
      assert i == 4;
      assert t == SPLIT_TOKEN && t[..12] == SPLIT_TOKEN;
    }
  }

  /** The loss is real: a closed "{{}}" makes the push emit the brace the next chunk needed. */
  lemma LossExample()
    ensures Streamed("", LOSSY_CHUNKS, map[SPLIT_TOKEN := ""])
         != RestoreString(Concat(LOSSY_CHUNKS), map[SPLIT_TOKEN := ""])
  {
    hide TokenLen, RestoreString, Streamed, Erases, Held;
    SplitTokenLen();
    SplitTokenErased();
    ClosedPairDrops();
    var rest := Concat(LOSSY_CHUNKS[1..]);
    assert LOSSY_CHUNKS[1..][1..] == [] && Concat([]) == "";
    assert rest == LOSSY_CHUNKS[1] + "" && "{" + rest == SPLIT_TOKEN;
    assert Concat(LOSSY_CHUNKS) == "{{}}" + SPLIT_TOKEN;
    assert "" + LOSSY_CHUNKS[0] == "{{}}{" && "" + Concat(LOSSY_CHUNKS) == Concat(LOSSY_CHUNKS);
    ErasedStreamIsLonger("", LOSSY_CHUNKS, map[SPLIT_TOKEN := ""]);
  }

  // ---- the restorer of one response, updated chunk by chunk ----

  class StreamRestorer {
    const mapping: Mapping?
    /** Per channel, the tail that may be the start of a placeholder; only one channel is in use. */
    var pending: map<string, string>

    constructor (mapping: Mapping?)
      ensures this.mapping == mapping && Pending() == ""
    {
      this.mapping := mapping;
      pending := map[];
    }

    function Pending(): string
      reads this
    {
      if DEFAULT_CHANNEL in pending then pending[DEFAULT_CHANNEL] else ""
    }

    function Registered(): Reverse
      reads this, mapping
    {
      if mapping == null then map[] else mapping.reverse
    }

    /** Every placeholder looked up in the session's table, from left to right. */
    method RestoreComplete(buf: string) returns (out: string)
      ensures out == RestoreString(buf, Registered())
    {
      if mapping == null || |buf| == 0 {
        NothingRegistered(buf);
        return buf;
      }
      out := "";
      var rest := buf;
      while rest != ""
        invariant out + RestoreString(rest, mapping.reverse) == RestoreString(buf, mapping.reverse)
        decreases |rest|
      {
        RestoreStep(rest, mapping.reverse);
        hide TokenLen, RestoreString;
        var k := StepLen(rest);
        var piece := rest[..k];
        if TokenLen(rest) > 0 {
          var original, ok := mapping.LookupToken(piece);
          if ok {
            piece := original;
          }
        }
        AppendAssoc(out, piece, RestoreString(rest[k..], mapping.reverse));
        out, rest := out + piece, rest[k..];
      }
    }

    method ScanBuffer(buf: string) returns (output: string, held: string)
      ensures Scan(output, held) == ScanAndRestore(buf, Registered())
    {
      var idx := LastOpen(buf, |buf|);
      if idx < 0 {
        if |buf| > 0 && buf[|buf| - 1] == '{' {
          output := RestoreComplete(buf[..|buf| - 1]);
          return output, buf[|buf| - 1..];
        }
        output := RestoreComplete(buf);
        return output, "";
      }
      if HasClose(buf[idx..]) {
        output := RestoreComplete(buf);
        return output, "";
      }
      output := RestoreComplete(buf[..idx]);
      held := buf[idx..];
    }

    /** Feeds one chunk; what comes back may be written to the client at once. */
    method Push(chunk: string) returns (out: string)
      modifies this
      ensures var step := PushSpec(old(Pending()), chunk, old(Registered()));
              out == step.output && Pending() == step.pending
      ensures pending - {DEFAULT_CHANNEL} == old(pending) - {DEFAULT_CHANNEL}
      ensures |Pending()| <= PENDING_MAX
      ensures Registered() == old(Registered())
    {
      PushEmits(Pending(), chunk, Registered());
      var buf := Pending() + chunk;
      var remain;
      out, remain := ScanBuffer(buf);
      if |remain| > PENDING_MAX {
        out := out + remain;
        remain := "";
      }
      if remain == "" {
        pending := pending - {DEFAULT_CHANNEL};
      } else {
        pending := pending[DEFAULT_CHANNEL := remain];
      }
    }

    /** End of stream: what is still held back goes out as it is. */
    method Flush() returns (out: string)
      modifies this
      ensures out == old(Pending()) && Pending() == ""
    {
      out := Pending();
      pending := pending - {DEFAULT_CHANNEL};
    }
  }
}
