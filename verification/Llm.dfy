/** Decoding with a key-value cache (src/llm/llm_forward.c): one step computes what the
    cache-free network computes from all the tokens so far. */
module Llm {
  import opened Layout
  import opened Quant
  import opened Prefix
  import opened Generation
  import opened LlmSpec
  import opened LlmOps
  import opened LlmMatmul
  import opened LlmAttention
  import opened LlmCache

  // ---------------------------------------------------------------- the parts of one layer

  /** Norm, projections and rotation. */
  method Project(net: Net, l: nat, pos: nat, residual: array<int8>, hidden: array<int8>,
                 qBuf: array<int8>, kBuf: array<int8>, vBuf: array<int8>, ghost r: Scaled)
    returns (qS: uint32, kS: uint32, vS: uint32)
    requires l < |net.layers| && pos < net.maxSeq && r.v == residual[..]
    requires residual.Length == hidden.Length == qBuf.Length == net.hidden && kBuf.Length == vBuf.Length == net.KvDim()
    requires hidden !in {qBuf, kBuf, vBuf} && qBuf !in {kBuf, vBuf} && kBuf != vBuf
    modifies hidden, qBuf, kBuf, vBuf
    ensures Scaled(qBuf[..], qS) == QueryOf(net, l, r, pos)
    ensures KV(Scaled(kBuf[..], kS), Scaled(vBuf[..], vS)) == KvOf(net, l, r, pos)
  {
    var y := net.layers[l];
    var n1S := RmsNormInto(hidden, residual, y.rmsAtt);
    qS := MultiplyRow(qBuf, hidden, y.wq, n1S, null);
    kS := MultiplyRow(kBuf, hidden, y.wk, n1S, null);
    vS := MultiplyRow(vBuf, hidden, y.wv, n1S, null);
    var cos, sin := TableRow(net, net.cos, pos), TableRow(net, net.sin, pos);
    HeadsDivide(net.nQ, net.dqkv);
    HeadsDivide(net.nKv, net.dqkv);
    RopeInPlace(net, qBuf, net.nQ, cos, sin);
    RopeInPlace(net, kBuf, net.nKv, cos, sin);
  }

  /** Attention over the cached rows, output projection, residual add. */
  method AttendInto(net: Net, cache: KvCache, l: nat, pos: nat, qBuf: array<int8>, qS: uint32, attnOut: array<int8>, mlpOut: array<int8>,
                    residual: array<int8>, resS: uint32, ghost r: Scaled, ghost kvs: seq<KV>)
    returns (resS': uint32)
    requires l < |net.layers| && pos < net.maxSeq && cache.net == net && cache.Valid() && kvs == cache.Rows(l, pos + 1) && |r.v| == net.hidden
    requires attnOut.Length == mlpOut.Length == residual.Length == qBuf.Length == net.hidden
    requires Scaled(qBuf[..], qS) == QueryOf(net, l, r, pos) && Scaled(residual[..], resS) == r
    requires attnOut !in {mlpOut, residual} && mlpOut != residual
    modifies attnOut, mlpOut, residual
    ensures Scaled(residual[..], resS') == Attended(net, l, r, pos, kvs)
  {
    var attnReal := new int[net.hidden];
    AttendAll(cache, l, qBuf, qS, attnReal, kvs, pos + 1);
    var aoS := Rescale(attnReal, attnOut);
    var oS := MultiplyRow(mlpOut, attnOut, net.layers[l].wo, aoS, null);
    resS' := AddRes(residual, residual, resS, mlpOut, oS);
  }

  /** Norm, gate and up projections, activation, down projection, residual add. */
  method FeedInto(net: Net, l: nat, hidden: array<int8>, gate: array<int8>, up: array<int8>, mlpOut: array<int8>,
                  residual: array<int8>, resS: uint32, ghost r: Scaled)
    returns (resS': uint32)
    requires l < |net.layers| && |r.v| == net.hidden
    requires hidden.Length == mlpOut.Length == residual.Length == net.hidden && gate.Length == up.Length == net.inter
    requires Scaled(residual[..], resS) == r
    requires hidden !in {gate, up, mlpOut, residual} && gate !in {up, mlpOut, residual} && up !in {mlpOut, residual} && mlpOut != residual
    modifies hidden, gate, up, mlpOut, residual
    ensures Scaled(residual[..], resS') == FedForward(net, l, r)
  {
    var y := net.layers[l];
    var n2S := RmsNormInto(hidden, residual, y.rmsFfn);
    var gS := MultiplyRow(gate, hidden, y.wGate, n2S, null);
    var uS := MultiplyRow(up, hidden, y.wUp, n2S, null);
    var actS := SwiGluInto(gate, gS, up, uS);
    var dS := MultiplyRow(mlpOut, gate, y.wDown, actS, null);
    resS' := AddRes(residual, residual, resS, mlpOut, dS);
  }

  // ---------------------------------------------------------------- sampling

  /** The repetition-penalty loop. */
  method PenaliseRecent(logits: array<int>, recent: array<nat>, n: nat)
    requires n <= recent.Length
    modifies logits
    ensures logits[..] == Penalise(old(logits[..]), recent[..n])
  {
    for r := 0 to n
      invariant logits[..] == Penalise(old(logits[..]), recent[..r])
    {
      assert recent[..r + 1][..r] == recent[..r];
      var t := recent[r];
      if t < logits.Length {
        var v := logits[t];
        ghost var now := logits[..];
        logits[t] := if v > 0 then v / 2 else v + Trunc(-v, 2);
        assert logits[..] == now[t := Penalised(now[t])];
      }
    }
  }

  method LargestLogit(logits: array<int>) returns (result: nat)
    requires logits.Length > 0
    ensures result == ArgMax(logits[..])
  {
    var best := logits[0];
    result := 0;
    for i := 1 to logits.Length
      invariant result < i && best == logits[result] && result == ArgMax(logits[..i])
    {
      assert logits[..i + 1][..i] == logits[..i];
      if logits[i] > best {
        best := logits[i];
        result := i;
      }
    }
    assert logits[..logits.Length] == logits[..];
  }

  // ---------------------------------------------------------------- the model

  class LlmModel {
    const net: Net
    const cache: KvCache
    const residual: array<int8>
    const hidden: array<int8>
    const qBuf: array<int8>
    const kBuf: array<int8>
    const vBuf: array<int8>
    const attnOut: array<int8>
    const gateBuf: array<int8>
    const upBuf: array<int8>
    const mlpOut: array<int8>
    const logits: array<int8>
    const logits32: array<int>
    const recent: array<nat>
    var recentN: nat

    ghost const repr: set<object>

    constructor (net: Net)
      ensures this.net == net && Valid() && Owned() && recentN == 0
    {
      var c := new KvCache(net);
      var res, hid, q, att, mlp := new int8[net.hidden], new int8[net.hidden], new int8[net.hidden], new int8[net.hidden], new int8[net.hidden];
      var k, v := new int8[net.KvDim()], new int8[net.KvDim()];
      var gate, up := new int8[net.inter], new int8[net.inter];
      var log, log32 := new int8[net.vocab], new int[net.vocab];
      var rec := new nat[CAP];
      this.net, cache, recentN := net, c, 0;
      residual, hidden, qBuf, kBuf, vBuf, attnOut := res, hid, q, k, v, att;
      gateBuf, upBuf, mlpOut, logits, logits32, recent := gate, up, mlp, log, log32, rec;
      repr := {c.k, c.v, res, hid, q, k, v, att, gate, up, mlp, log} + {c.kScale, c.vScale} + {rec} + {log32};
    }

    /** Sizes, and no two buffers the same.  Nothing is said of what the buffers hold. */
    ghost predicate Valid() {
      && cache.net == net && cache.Valid()
      && residual.Length == hidden.Length == qBuf.Length == attnOut.Length == mlpOut.Length == net.hidden
      && kBuf.Length == vBuf.Length == net.KvDim()
      && gateBuf.Length == upBuf.Length == net.inter
      && logits.Length == logits32.Length == net.vocab && recent.Length == CAP
      && residual !in {hidden, qBuf, kBuf, vBuf, attnOut, gateBuf, upBuf, mlpOut, logits, cache.k, cache.v}
      && hidden !in {qBuf, kBuf, vBuf, attnOut, gateBuf, upBuf, mlpOut, logits, cache.k, cache.v}
      && qBuf !in {kBuf, vBuf, attnOut, gateBuf, upBuf, mlpOut, logits, cache.k, cache.v}
      && kBuf !in {vBuf, attnOut, gateBuf, upBuf, mlpOut, logits, cache.k, cache.v}
      && vBuf !in {attnOut, gateBuf, upBuf, mlpOut, logits, cache.k, cache.v}
      && attnOut !in {gateBuf, upBuf, mlpOut, logits, cache.k, cache.v}
      && gateBuf !in {upBuf, mlpOut, logits, cache.k, cache.v}
      && upBuf !in {mlpOut, logits, cache.k, cache.v}
      && mlpOut !in {logits, cache.k, cache.v}
      && logits !in {cache.k, cache.v}
    }

    /** repr is everything a step may write. */
    ghost predicate Owned() {
      && residual in repr && hidden in repr && qBuf in repr && kBuf in repr && vBuf in repr && attnOut in repr && gateBuf in repr
      && upBuf in repr && mlpOut in repr && logits in repr && logits32 in repr && recent in repr
      && cache.k in repr && cache.v in repr && cache.kScale in repr && cache.vScale in repr
    }

    /** The recent choices. */
    function History(): (h: seq<nat>)
      requires recentN <= recent.Length
      reads this`recentN, recent
      ensures |h| == recentN
    {
      recent[..recentN]
    }

    /** One layer at one position.  r is the residual, t the cache, kvs the rows attended to. */
    method Layer(l: nat, pos: nat, resS: uint32, ghost r: Scaled, ghost t: seq<seq<KV>>, ghost kvs: seq<KV>) returns (resS': uint32)
      requires Valid() && l < |net.layers| && pos < net.maxSeq && r == Scaled(residual[..], resS) && t == cache.Table()
      requires kvs == Put(net, t, l, pos, KvOf(net, l, r, pos))[l][..pos + 1] && Cached(net, kvs)
      modifies residual, hidden, qBuf, kBuf, vBuf, attnOut, gateBuf, upBuf, mlpOut, cache.k, cache.v, cache.kScale, cache.vScale
      ensures cache.Table() == Put(net, t, l, pos, KvOf(net, l, r, pos))
      ensures Scaled(residual[..], resS') == LayerOut(net, l, r, pos, kvs)
    {
      hide *;
      var qS := CacheRow(l, pos, resS, r, t);
      cache.RowsOfTable(l, pos + 1);
      resS' := FinishLayer(l, pos, qS, resS, r, kvs);
    }

    /** The first half: the position's query, and its key and value cached. */
    method CacheRow(l: nat, pos: nat, resS: uint32, ghost r: Scaled, ghost t: seq<seq<KV>>) returns (qS: uint32)
      requires Valid() && l < |net.layers| && pos < net.maxSeq && r == Scaled(residual[..], resS) && t == cache.Table()
      modifies hidden, qBuf, kBuf, vBuf, cache.k, cache.v, cache.kScale, cache.vScale
      ensures cache.Table() == Put(net, t, l, pos, KvOf(net, l, r, pos))
      ensures Scaled(qBuf[..], qS) == QueryOf(net, l, r, pos)
      ensures cache.net == net && cache.Valid() && residual[..] == old(residual[..])
    {
      hide QueryOf, KvOf, Put;
      var kS, vS;
      qS, kS, vS := Project(net, l, pos, residual, hidden, qBuf, kBuf, vBuf, r);
      cache.Append(l, pos, kBuf, kS, vBuf, vS);
    }

    /** The second half: attention over the rows and the feed-forward part. */
    method FinishLayer(l: nat, pos: nat, qS: uint32, resS: uint32, ghost r: Scaled, ghost kvs: seq<KV>) returns (resS': uint32)
      requires Valid() && l < |net.layers| && pos < net.maxSeq && r == Scaled(residual[..], resS) && kvs == cache.Rows(l, pos + 1)
      requires Scaled(qBuf[..], qS) == QueryOf(net, l, r, pos)
      modifies residual, hidden, attnOut, gateBuf, upBuf, mlpOut
      ensures Scaled(residual[..], resS') == LayerOut(net, l, r, pos, kvs)
      ensures cache.Table() == old(cache.Table())
    {
      hide QueryOf, Attended, FedForward;
      var s := AttendInto(net, cache, l, pos, qBuf, qS, attnOut, mlpOut, residual, resS, r, kvs);
      resS' := FeedInto(net, l, hidden, gateBuf, upBuf, mlpOut, residual, s, Attended(net, l, r, pos, kvs));
    }

    /** llm_gather_int8 */
    method Gather(token: nat)
      requires Valid() && token < net.vocab
      modifies residual
      ensures residual[..] == Embed(net, token).v
    {
      EmbedSized(net, token);
      var row := Embed(net, token).v;
      forall i | 0 <= i < residual.Length {
        residual[i] := row[i];
      }
    }

    /** Embedding and all layers of one position. */
    method Layers(token: nat, pos: nat, ghost toks: seq<nat>) returns (resS: uint32)
      requires Valid() && ValidTokens(net, toks) && |toks| == pos + 1 && toks[pos] == token
      requires HoldAll(net, cache.Table(), toks, 0, |net.layers|, pos)
      modifies residual, hidden, qBuf, kBuf, vBuf, attnOut, gateBuf, upBuf, mlpOut, cache.k, cache.v, cache.kScale, cache.vScale
      ensures HoldAll(net, cache.Table(), toks, 0, |net.layers|, pos + 1)
      ensures Scaled(residual[..], resS) == Residual(MachineOf(net), toks, pos, |net.layers|)
    {
      hide Holds, KvOf, LayerOut;
      Gather(token);
      resS := net.embedding.scale;
      for l := 0 to |net.layers|
        invariant Scaled(residual[..], resS) == Residual(MachineOf(net), toks, pos, l)
        invariant HoldAll(net, cache.Table(), toks, 0, l, pos + 1) && HoldAll(net, cache.Table(), toks, l, |net.layers|, pos)
      {
        resS := OneLayer(l, pos, resS, toks);
      }
    }

    method OneLayer(l: nat, pos: nat, resS: uint32, ghost toks: seq<nat>) returns (resS': uint32)
      requires Valid() && ValidTokens(net, toks) && |toks| == pos + 1 && l < |net.layers|
      requires Scaled(residual[..], resS) == Residual(MachineOf(net), toks, pos, l)
      requires HoldAll(net, cache.Table(), toks, 0, l, pos + 1) && HoldAll(net, cache.Table(), toks, l, |net.layers|, pos)
      modifies residual, hidden, qBuf, kBuf, vBuf, attnOut, gateBuf, upBuf, mlpOut, cache.k, cache.v, cache.kScale, cache.vScale
      ensures Scaled(residual[..], resS') == Residual(MachineOf(net), toks, pos, l + 1)
      ensures HoldAll(net, cache.Table(), toks, 0, l + 1, pos + 1) && HoldAll(net, cache.Table(), toks, l + 1, |net.layers|, pos)
    {
      hide KvOf, LayerOut, HoldAll, Put, Cached;
      ghost var t := cache.Table();
      ghost var r := Residual(MachineOf(net), toks, pos, l);
      LayerIs(net, toks, pos, l);
      PutHolds(net, t, toks, l, pos, KvOf(net, l, r, pos));
      resS' := Layer(l, pos, resS, r, t, KvsTo(MachineOf(net), toks, pos + 1, l));
    }

    /** Final norm and head, penalty, choice of the largest logit. */
    method Choose(ghost r: Scaled) returns (result: nat)
      requires Valid() && r.v == residual[..] && recentN <= CAP
      modifies hidden, logits, logits32
      ensures logits32[..] == Penalise(LogitsOf(net, r), History())
      ensures result == ArgMax(logits32[..])
    {
      var nfS := RmsNormInto(hidden, residual, net.rmsOut);
      var unused := MultiplyRow(logits, hidden, net.lmHead, nfS, logits32);
      PenaliseRecent(logits32, recent, recentN);
      result := LargestLogit(logits32);
    }

    /** The recent-token history, shifted down when full. */
    method Record(t: nat)
      requires recentN <= CAP == recent.Length
      modifies recent, this`recentN
      ensures recentN <= CAP && History() == Remember(old(History()), t)
    {
      if recentN < CAP {
        recent[recentN] := t;
        recentN := recentN + 1;
      } else {
        for i := 1 to CAP
          invariant recentN == CAP
          invariant forall j :: 0 <= j < i - 1 ==> recent[j] == old(recent[j + 1])
          invariant forall j :: i - 1 <= j < CAP ==> recent[j] == old(recent[j])
        {
          recent[i - 1] := recent[i];
        }
        recent[CAP - 1] := t;
        assert recent[..CAP] == old(recent[..CAP])[1..] + [t];
      }
    }

    /** The tail of llm_forward: the choice, recorded. */
    method Answer(ghost r: Scaled) returns (result: nat)
      requires Valid() && r.v == residual[..] && recentN <= CAP
      modifies hidden, logits, logits32, recent, this`recentN
      ensures recentN <= CAP && logits32[..] == Penalise(LogitsOf(net, r), old(History()))
      ensures result == ArgMax(logits32[..]) && History() == Remember(old(History()), result)
    {
      result := Choose(r);
      Record(result);
    }

    /** llm_forward: one decoding step.  If the cache holds the keys and values of the
        tokens before this one, it afterwards holds this one's as well, and the answer is
        that of the cache-free network on all the tokens. */
    method Forward(token: nat, pos: nat, ghost toks: seq<nat>) returns (result: nat)
      requires Valid() && Owned() && recentN <= CAP && ValidTokens(net, toks) && |toks| == pos + 1 && toks[pos] == token
      requires HoldAll(net, cache.Table(), toks, 0, |net.layers|, pos)
      modifies repr, this`recentN
      ensures recentN <= CAP && HoldAll(net, cache.Table(), toks, 0, |net.layers|, pos + 1)
      ensures result == Next(net, toks, old(History())) && History() == Remember(old(History()), result)
      ensures logits32[..] == Penalise(Logits(net, toks), old(History()))
    {
      hide HoldAll, Residual, LogitsOf, Penalise, ArgMax;
      var resS := Layers(token, pos, toks);
      result := Answer(Residual(MachineOf(net), toks, pos, |net.layers|));
    }

    /** One decoding step as a choice of the network. */
    method Step(token: nat, pos: nat, ghost toks: seq<nat>) returns (result: nat)
      requires Valid() && Owned() && recentN <= CAP && |toks| == pos && Usable(net, toks) && token < net.vocab && pos < net.maxSeq
      requires HoldAll(net, cache.Table(), toks, 0, |net.layers|, pos)
      modifies repr, this`recentN
      ensures recentN <= CAP && HoldAll(net, cache.Table(), toks + [token], 0, |net.layers|, pos + 1) && result < net.vocab
      ensures Choice(result, History()) == ChooserOf(net)(toks + [token], old(History()))
    {
      hide Next, Remember;
      Longer(net, cache.Table(), toks, token);
      result := Forward(token, pos, toks + [token]);
    }

    /** llm_generate: what is emitted depends on the prompt alone, whatever an earlier
        generation left in the cache, the buffers and the history. */
    method Generate(prompt: seq<nat>, maxTokens: nat, eos: nat) returns (out: seq<nat>)
      requires Valid() && Owned() && Usable(net, prompt) && |prompt| + maxTokens <= net.maxSeq
      modifies repr, this`recentN
      ensures out == Emitted(ChooserOf(net), prompt, Prompted(ChooserOf(net), prompt), maxTokens, eos)
    {
      recentN := 0;
      var next := ReadPrompt(prompt, ChooserOf(net));
      out := Emit(next, |prompt|, maxTokens, eos, prompt, ChooserOf(net));
    }

    /** The prompt loop. */
    method ReadPrompt(prompt: seq<nat>, ghost choose: Chooser) returns (next: nat)
      requires Valid() && Owned() && Usable(net, prompt) && recentN == 0 && choose == ChooserOf(net)
      modifies repr, this`recentN
      ensures recentN <= CAP && HoldAll(net, cache.Table(), prompt, 0, |net.layers|, |prompt|) && next < net.vocab
      ensures Choice(next, History()) == Prompted(choose, prompt)
    {
      hide HoldAll, ChooserOf;
      NoneHeld(net, cache.Table());
      assert prompt[..0] == [];
      next := 0;
      for i := 0 to |prompt|
        invariant recentN <= CAP && HoldAll(net, cache.Table(), prompt[..i], 0, |net.layers|, i) && next < net.vocab
        invariant Choice(next, History()) == Prompted(choose, prompt[..i])
      {
        PromptedStep(choose, prompt, i);
        next := Step(prompt[i], i, prompt[..i]);
      }
      assert prompt[..|prompt|] == prompt;
    }

    /** The generation loop. */
    method Emit(first: nat, at: nat, maxTokens: nat, eos: nat, ghost prompt: seq<nat>, ghost choose: Chooser) returns (out: seq<nat>)
      requires Valid() && Owned() && recentN <= CAP && Usable(net, prompt) && at == |prompt| && choose == ChooserOf(net)
      requires |prompt| + maxTokens <= net.maxSeq && first < net.vocab && HoldAll(net, cache.Table(), prompt, 0, |net.layers|, |prompt|)
      modifies repr, this`recentN
      ensures out == Emitted(choose, prompt, Choice(first, old(History())), maxTokens, eos)
    {
      hide HoldAll, ChooserOf, Remaining, Emitted;
      ghost var c := Choice(first, History());
      ghost var goal := Emitted(choose, prompt, c, maxTokens, eos);
      ghost var toks := prompt;
      Begin(choose, prompt, c, maxTokens, eos);
      var next: nat, pos: nat, step: nat := first, at, 0;
      out := [];
      while step < maxTokens && next != eos
        invariant step <= maxTokens && recentN <= CAP && pos == |toks| <= net.maxSeq - maxTokens + step && next < net.vocab
        invariant Usable(net, toks) && HoldAll(net, cache.Table(), toks, 0, |net.layers|, pos)
        invariant c == Choice(next, History()) && Remaining(choose, out, toks, c, maxTokens - step, eos, goal)
      {
        Progress(choose, out, toks, c, maxTokens - step, eos, goal);
        out := out + [next];
        var now := next;
        next := Step(now, pos, toks);
        toks := toks + [now];
        c := Choice(next, History());
        pos := pos + 1;
        step := step + 1;
      }
      Finished(choose, out, toks, c, maxTokens - step, eos, goal);
    }
  }
}
