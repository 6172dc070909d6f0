/** Byte-pair encoding (src/llm/llm_tokenizer.c): what encoding and decoding compute, the
    text a merge preserves, the round trip, and when no mergeable pair is left. */
module Bpe {

  type byte = b: int | 0 <= b < 256

  /** Tokens a, b side by side become r. */
  datatype Rule = Rule(a: nat, b: nat, r: nat)

  datatype Tokenizer = Tokenizer(vocab: seq<seq<byte>>, merges: seq<Rule>)

  const SPACE: byte := 32

  /** The word marker, U+2581 in UTF-8. */
  const MARK: seq<byte> := [0xE2, 0x96, 0x81]

  /** tok_get_str: unknown ids have no text. */
  function Str(tok: Tokenizer, id: nat): seq<byte> { if id < |tok.vocab| then tok.vocab[id] else [] }

  /** tok_find from position i on: the first entry equal to s, or 0. */
  function FindFrom(tok: Tokenizer, s: seq<byte>, i: nat): (id: nat)
    requires i <= |tok.vocab|
    ensures s in tok.vocab[i..] ==> i <= id < |tok.vocab| && tok.vocab[id] == s
    ensures s !in tok.vocab[i..] ==> id == 0
    ensures forall k :: i <= k < id ==> tok.vocab[k] != s
    ensures id == 0 || id < |tok.vocab|
    decreases |tok.vocab| - i
  {
    if i == |tok.vocab| then 0 else if tok.vocab[i] == s then i else FindFrom(tok, s, i + 1)
  }

  function Find(tok: Tokenizer, s: seq<byte>): nat { FindFrom(tok, s, 0) }

  // ---------------------------------------------------------------- encoding

  /** What one character is encoded from. */
  function Symbol(c: byte): seq<byte> { if c == SPACE then MARK else [c] }

  /** One token for the leading marker and one for each character. */
  function Seed(tok: Tokenizer, text: seq<byte>): (ids: seq<nat>)
    ensures |ids| == |text| + 1
  {
    if text == [] then [Find(tok, MARK)] else Seed(tok, text[..|text| - 1]) + [Find(tok, Symbol(text[|text| - 1]))]
  }

  function Take(ids: seq<nat>, maxIds: int): seq<nat> {
    if maxIds <= 0 then [] else if |ids| <= maxIds then ids else ids[..maxIds]
  }

  /** When there is not room for all, the first ones stay. */
  lemma TakeIsPrefix(ids: seq<nat>, maxIds: int)
    ensures Take(ids, maxIds) <= ids
    ensures |Take(ids, maxIds)| == if maxIds < 0 then 0 else if maxIds < |ids| then maxIds else |ids|
  {
  }

  predicate Match(ids: seq<nat>, rule: Rule, i: nat)
    requires i + 1 < |ids|
  {
    ids[i] == rule.a && ids[i + 1] == rule.b
  }

  function Replace(ids: seq<nat>, rule: Rule, i: nat): (ids': seq<nat>)
    requires i + 1 < |ids|
    ensures |ids'| == |ids| - 1
  {
    ids[..i] + [rule.r] + ids[i + 2..]
  }

  /** One rule applied from position i on, looking again where it has just merged. */
  function PassFrom(ids: seq<nat>, rule: Rule, i: nat): (ids': seq<nat>)
    ensures |ids'| <= |ids|
    decreases |ids| - i
  {
    if i + 1 >= |ids| then ids
    else if Match(ids, rule, i) then PassFrom(Replace(ids, rule, i), rule, i)
    else PassFrom(ids, rule, i + 1)
  }

  /** All rules in order. */
  function MergeAll(ids: seq<nat>, merges: seq<Rule>): (ids': seq<nat>)
    ensures |ids'| <= |ids|
    decreases |merges|
  {
    if merges == [] then ids else MergeAll(PassFrom(ids, merges[0], 0), merges[1..])
  }

  function Encoded(tok: Tokenizer, text: seq<byte>, maxIds: int): seq<nat> { MergeAll(Take(Seed(tok, text), maxIds), tok.merges) }

  /** A single token admits no merge, so stopping there changes nothing. */
  lemma {:induction false} ShortStays(ids: seq<nat>, merges: seq<Rule>)
    requires |ids| <= 1
    ensures MergeAll(ids, merges) == ids
    decreases |merges|
  {
    if merges != [] { ShortStays(ids, merges[1..]); }
  }

  // ---------------------------------------------------------------- decoding

  predicate MarkAt(s: seq<byte>, i: nat) { i + 2 < |s| && s[i] == 0xE2 && s[i + 1] == 0x96 && s[i + 2] == 0x81 }

  /** Every marker becomes a space. */
  function Unmark(s: seq<byte>): (r: seq<byte>)
    ensures |r| <= |s|
    decreases |s|
  {
    if s == [] then [] else if MarkAt(s, 0) then [SPACE] + Unmark(s[3..]) else [s[0]] + Unmark(s[1..])
  }

  function Text(tok: Tokenizer, ids: seq<nat>): seq<byte> {
    if ids == [] then [] else Text(tok, ids[..|ids| - 1]) + Str(tok, ids[|ids| - 1])
  }

  /** The decoded tokens one after the other. */
  function DecodeAll(tok: Tokenizer, ids: seq<nat>): seq<byte> {
    if ids == [] then [] else DecodeAll(tok, ids[..|ids| - 1]) + Unmark(Str(tok, ids[|ids| - 1]))
  }

  // ---------------------------------------------------------------- what a pass computes

  /** One sweep from the left, taking two tokens for a match and one otherwise. */
  function Sweep(ids: seq<nat>, rule: Rule): seq<nat>
    decreases |ids|
  {
    if |ids| < 2 then ids
    else if Match(ids, rule, 0) then [rule.r] + Sweep(ids[2..], rule)
    else [ids[0]] + Sweep(ids[1..], rule)
  }

  /** Merging in place is that sweep, unless a merged token can merge again. */
  lemma {:induction false} PassIsSweep(ids: seq<nat>, rule: Rule, i: nat)
    requires rule.r != rule.a && i <= |ids|
    ensures PassFrom(ids, rule, i) == ids[..i] + Sweep(ids[i..], rule)
    decreases |ids| - i
  {
    if i + 1 >= |ids| {
      assert ids == ids[..i] + ids[i..];
    } else if Match(ids, rule, i) {
      var ids' := Replace(ids, rule, i);
      assert ids'[i] == rule.r && ids'[..i + 1] == ids[..i] + [rule.r] && ids'[i + 1..] == ids[i..][2..];
      AfterMerge(ids', rule, i);
      PassIsSweep(ids', rule, i + 1);
      assert ids[..i] + [rule.r] + Sweep(ids[i..][2..], rule) == ids[..i] + ([rule.r] + Sweep(ids[i..][2..], rule));
    } else {
      assert ids[..i + 1] == ids[..i] + [ids[i]] && ids[i + 1..] == ids[i..][1..];
      PassIsSweep(ids, rule, i + 1);
      assert ids[..i] + [ids[i]] + Sweep(ids[i..][1..], rule) == ids[..i] + ([ids[i]] + Sweep(ids[i..][1..], rule));
    }
  }

  lemma AfterMerge(ids: seq<nat>, rule: Rule, i: nat)
    requires i < |ids| && ids[i] == rule.r != rule.a
    ensures PassFrom(ids, rule, i) == PassFrom(ids, rule, i + 1)
  {
  }

  // ---------------------------------------------------------------- merges preserve the text

  predicate Concatenates(tok: Tokenizer, rule: Rule) { Str(tok, rule.r) == Str(tok, rule.a) + Str(tok, rule.b) }

  lemma {:induction false} TextConcat(tok: Tokenizer, s: seq<nat>, t: seq<nat>)
    ensures Text(tok, s + t) == Text(tok, s) + Text(tok, t)
  {
    hide Str;
    if t == [] {
      assert s + t == s;
    } else {
      var n := |t| - 1;
      assert (s + t)[..|s| + n] == s + t[..n] && (s + t)[|s| + n] == t[n];
      TextConcat(tok, s, t[..n]);
    }
  }

  /** One merge, wherever it happens. */
  lemma ReplaceKeepsText(tok: Tokenizer, ids: seq<nat>, rule: Rule, i: nat)
    requires Concatenates(tok, rule) && i + 1 < |ids| && Match(ids, rule, i)
    ensures Text(tok, Replace(ids, rule, i)) == Text(tok, ids)
  {
    hide Text;
    var (s, t) := (ids[..i], ids[i + 2..]);
    assert ids == s + [rule.a, rule.b] + t;
    TextConcat(tok, s + [rule.a, rule.b], t);
    TextConcat(tok, s + [rule.r], t);
    TextConcat(tok, s, [rule.r]);
    TextConcat(tok, s, [rule.a, rule.b]);
    TextConcat(tok, [rule.a], [rule.b]);
    assert [rule.a] + [rule.b] == [rule.a, rule.b];
    OneText(tok, rule.a);
    OneText(tok, rule.b);
    OneText(tok, rule.r);
  }

  lemma OneText(tok: Tokenizer, id: nat)
    ensures Text(tok, [id]) == Str(tok, id)
  {
    assert [id][..0] == [];
    assert Text(tok, [id]) == [] + Str(tok, id);
  }

  lemma {:induction false} PassKeepsText(tok: Tokenizer, ids: seq<nat>, rule: Rule, i: nat)
    requires Concatenates(tok, rule)
    ensures Text(tok, PassFrom(ids, rule, i)) == Text(tok, ids)
    decreases |ids| - i
  {
    if i + 1 < |ids| {
      if Match(ids, rule, i) {
        ReplaceKeepsText(tok, ids, rule, i);
        PassKeepsText(tok, Replace(ids, rule, i), rule, i);
      } else {
        PassKeepsText(tok, ids, rule, i + 1);
      }
    }
  }

  lemma {:induction false} MergesKeepText(tok: Tokenizer, ids: seq<nat>, merges: seq<Rule>)
    requires forall k :: 0 <= k < |merges| ==> Concatenates(tok, merges[k])
    ensures Text(tok, MergeAll(ids, merges)) == Text(tok, ids)
    decreases |merges|
  {
    if merges != [] {
      PassKeepsText(tok, ids, merges[0], 0);
      MergesKeepText(tok, PassFrom(ids, merges[0], 0), merges[1..]);
    }
  }

  // ---------------------------------------------------------------- whole symbols

  predicate Ascii(text: seq<byte>) { forall i :: 0 <= i < |text| ==> 0 < text[i] < 128 }

  /** s is made of whole markers and ASCII characters. */
  predicate Whole(s: seq<byte>)
    decreases |s|
  {
    s == [] || (if MarkAt(s, 0) then Whole(s[3..]) else s[0] < 128 && Whole(s[1..]))
  }

  /** The text from position i on, one symbol at a time. */
  lemma UnmarkAt(s: seq<byte>, i: nat)
    requires i < |s|
    ensures MarkAt(s, i) ==> Unmark(s[i..]) == [SPACE] + Unmark(s[i + 3..])
    ensures !MarkAt(s, i) ==> Unmark(s[i..]) == [s[i]] + Unmark(s[i + 1..])
  {
    var t := s[i..];
    assert MarkAt(t, 0) == MarkAt(s, i);
    assert t[1..] == s[i + 1..];
    assert MarkAt(s, i) ==> t[3..] == s[i + 3..];
  }

  lemma WholeStep(s: seq<byte>, t: seq<byte>)
    requires Whole(s) && s != []
    ensures MarkAt(s, 0) == MarkAt(s + t, 0) && Whole(s[if MarkAt(s, 0) then 3 else 1..])
    ensures Whole(s[if MarkAt(s, 0) then 3 else 1..] + t) ==> Whole(s + t)
  {
    assert MarkAt(s, 0) ==> (s + t)[3..] == s[3..] + t;
    assert (s + t)[1..] == s[1..] + t;
  }

  lemma FromStart(s: seq<byte>)
    ensures s[0..] == s
  {
  }

  lemma TailConcat(s: seq<byte>, t: seq<byte>, n: nat)
    requires n <= |s|
    ensures (s + t)[n..] == s[n..] + t
  {
  }

  lemma Regroup(a: seq<byte>, b: seq<byte>, c: seq<byte>)
    ensures a + (b + c) == a + b + c
  {
  }

  /** No marker straddles the border of whole texts. */
  lemma {:induction false} WholeConcat(s: seq<byte>, t: seq<byte>)
    requires Whole(s)
    ensures Unmark(s + t) == Unmark(s) + Unmark(t)
    ensures Whole(t) ==> Whole(s + t)
    decreases |s|
  {
    if s == [] {
      assert s + t == t;
    } else {
      WholeStep(s, t);
      UnmarkAt(s, 0);
      UnmarkAt(s + t, 0);
      hide Unmark, Whole;
      var (n, x) := if MarkAt(s, 0) then (3, SPACE) else (1, s[0]);
      WholeConcat(s[n..], t);
      FromStart(s);
      FromStart(s + t);
      TailConcat(s, t, n);
      Regroup([x], Unmark(s[n..]), Unmark(t));
    }
  }

  ghost predicate AllWhole(tok: Tokenizer, ids: seq<nat>) { forall i :: 0 <= i < |ids| ==> Whole(Str(tok, ids[i])) }

  lemma {:induction false} PassKeepsWhole(tok: Tokenizer, ids: seq<nat>, rule: Rule, i: nat)
    requires Concatenates(tok, rule) && AllWhole(tok, ids)
    ensures AllWhole(tok, PassFrom(ids, rule, i))
    decreases |ids| - i
  {
    if i + 1 < |ids| {
      if Match(ids, rule, i) {
        WholeConcat(Str(tok, ids[i]), Str(tok, ids[i + 1]));
        PassKeepsWhole(tok, Replace(ids, rule, i), rule, i);
      } else {
        PassKeepsWhole(tok, ids, rule, i + 1);
      }
    }
  }

  lemma {:induction false} MergesKeepWhole(tok: Tokenizer, ids: seq<nat>, merges: seq<Rule>)
    requires AllWhole(tok, ids) && forall k :: 0 <= k < |merges| ==> Concatenates(tok, merges[k])
    ensures AllWhole(tok, MergeAll(ids, merges))
    decreases |merges|
  {
    if merges != [] {
      PassKeepsWhole(tok, ids, merges[0], 0);
      MergesKeepWhole(tok, PassFrom(ids, merges[0], 0), merges[1..]);
    }
  }

  lemma {:induction false} DecodesWhole(tok: Tokenizer, ids: seq<nat>)
    requires AllWhole(tok, ids)
    ensures DecodeAll(tok, ids) == Unmark(Text(tok, ids)) && Whole(Text(tok, ids))
  {
    if ids != [] {
      var n := |ids| - 1;
      DecodesWhole(tok, ids[..n]);
      WholeConcat(Text(tok, ids[..n]), Str(tok, ids[n]));
    }
  }

  // ---------------------------------------------------------------- the round trip

  /** The marker and every character of the text are vocabulary entries. */
  predicate Covers(tok: Tokenizer, text: seq<byte>) {
    MARK in tok.vocab && forall i :: 0 <= i < |text| ==> Symbol(text[i]) in tok.vocab
  }

  lemma SymbolWhole(c: byte)
    requires 0 < c < 128
    ensures Whole(Symbol(c)) && Unmark(Symbol(c)) == [c]
  {
    if c == SPACE {
      MarkWhole();
    } else {
      assert [c][1..] == [];
    }
  }

  lemma MarkWhole()
    ensures Whole(MARK) && Unmark(MARK) == [SPACE]
  {
    assert MARK[3..] == [];
  }

  lemma FindGives(tok: Tokenizer, s: seq<byte>)
    requires s in tok.vocab
    ensures Str(tok, Find(tok, s)) == s
  {
    assert tok.vocab[0..] == tok.vocab;
  }

  lemma OneMore(tok: Tokenizer, ids: seq<nat>, id: nat, c: byte)
    requires 0 < c < 128 && Str(tok, id) == Symbol(c) && AllWhole(tok, ids)
    ensures AllWhole(tok, ids + [id]) && DecodeAll(tok, ids + [id]) == DecodeAll(tok, ids) + [c]
  {
    SymbolWhole(c);
    hide Unmark, Whole;
    assert (ids + [id])[..|ids|] == ids;
  }

  /** The seed tokens spell the text, the marker for every space. */
  lemma {:induction false} SeedDecodes(tok: Tokenizer, text: seq<byte>)
    requires Ascii(text) && Covers(tok, text)
    ensures AllWhole(tok, Seed(tok, text)) && DecodeAll(tok, Seed(tok, text)) == [SPACE] + text
  {
    hide Unmark, Whole, FindFrom, DecodeAll, AllWhole;
    if text == [] {
      FindGives(tok, MARK);
      StartDecodes(tok, Find(tok, MARK));
    } else {
      var n := |text| - 1;
      SeedDecodes(tok, text[..n]);
      FindGives(tok, Symbol(text[n]));
      OneMore(tok, Seed(tok, text[..n]), Find(tok, Symbol(text[n])), text[n]);
      assert [SPACE] + text[..n] + [text[n]] == [SPACE] + text;
    }
  }

  lemma StartDecodes(tok: Tokenizer, id: nat)
    requires Str(tok, id) == MARK
    ensures AllWhole(tok, [id]) && DecodeAll(tok, [id]) == [SPACE] + []
  {
    MarkWhole();
    assert [id][..0] == [];
    assert DecodeAll(tok, [id]) == [] + Unmark(MARK);
  }

  /** Decoding the encoded tokens gives a space and the text. */
  lemma RoundTrip(tok: Tokenizer, text: seq<byte>, maxIds: int)
    requires Ascii(text) && Covers(tok, text) && maxIds > |text|
    requires forall k :: 0 <= k < |tok.merges| ==> Concatenates(tok, tok.merges[k])
    ensures DecodeAll(tok, Encoded(tok, text, maxIds)) == [SPACE] + text
  {
    var seed := Seed(tok, text);
    SeedDecodes(tok, text);
    DecodesWhole(tok, seed);
    MergesKeepWhole(tok, seed, tok.merges);
    MergesKeepText(tok, seed, tok.merges);
    DecodesWhole(tok, Encoded(tok, text, maxIds));
  }

  // ---------------------------------------------------------------- normal form

  ghost predicate NoPair(ids: seq<nat>, rule: Rule, n: nat) { forall i: nat :: i < n && i + 1 < |ids| ==> !Match(ids, rule, i) }

  /** A result that is the second part but not the first can meet a first part on its left. */
  predicate Settles(rule: Rule) { rule.r != rule.b || rule.a == rule.b }

  predicate Fresh(rule: Rule, earlier: Rule) { rule.r != earlier.a && rule.r != earlier.b }

  lemma {:induction false} PassSettles(ids: seq<nat>, rule: Rule, i: nat)
    requires Settles(rule) && NoPair(ids, rule, i)
    ensures NoPair(PassFrom(ids, rule, i), rule, |ids|)
    decreases |ids| - i
  {
    if i + 1 < |ids| {
      if Match(ids, rule, i) {
        var ids' := Replace(ids, rule, i);
        forall j: nat | j < i && j + 1 < |ids'| ensures !Match(ids', rule, j) {
          assert !Match(ids, rule, j);
        }
        PassSettles(ids', rule, i);
      } else {
        PassSettles(ids, rule, i + 1);
      }
    }
  }

  lemma {:induction false} PassKeepsSettled(ids: seq<nat>, rule: Rule, i: nat, earlier: Rule)
    requires Fresh(rule, earlier) && NoPair(ids, earlier, |ids|)
    ensures NoPair(PassFrom(ids, rule, i), earlier, |ids|)
    decreases |ids| - i
  {
    if i + 1 < |ids| {
      if Match(ids, rule, i) {
        var ids' := Replace(ids, rule, i);
        forall j: nat | j < |ids'| && j + 1 < |ids'| ensures !Match(ids', earlier, j) {
          assert j + 1 < i ==> !Match(ids, earlier, j);
          assert j > i ==> !Match(ids, earlier, j + 1);
        }
        PassKeepsSettled(ids', rule, i, earlier);
      } else {
        PassKeepsSettled(ids, rule, i + 1, earlier);
      }
    }
  }

  /** No rule's result takes part in an earlier rule, and every rule settles. */
  predicate WellOrdered(merges: seq<Rule>) {
    && (forall k :: 0 <= k < |merges| ==> Settles(merges[k]))
    && forall j, k :: 0 <= j < k < |merges| ==> Fresh(merges[k], merges[j])
  }

  /** After the first n rules, none of them applies anywhere. */
  lemma {:induction false} NormalTo(ids: seq<nat>, merges: seq<Rule>, n: nat)
    requires WellOrdered(merges) && n <= |merges| && forall j :: 0 <= j < n ==> NoPair(ids, merges[j], |ids|)
    ensures forall j :: 0 <= j < |merges| ==> NoPair(MergeAll(ids, merges[n..]), merges[j], |ids|)
    decreases |merges| - n
  {
    if n < |merges| {
      var ids' := PassFrom(ids, merges[n], 0);
      PassSettles(ids, merges[n], 0);
      forall j | 0 <= j < n + 1 ensures NoPair(ids', merges[j], |ids'|) {
        if j < n { PassKeepsSettled(ids, merges[n], 0, merges[j]); }
      }
      NormalTo(ids', merges, n + 1);
      assert merges[n..][1..] == merges[n + 1..];
    }
  }

  /** With well-ordered rules, no adjacent pair of the encoding can still be merged. */
  lemma NormalForm(tok: Tokenizer, text: seq<byte>, maxIds: int, rule: Rule, i: nat)
    requires WellOrdered(tok.merges) && rule in tok.merges && i + 1 < |Encoded(tok, text, maxIds)|
    ensures !Match(Encoded(tok, text, maxIds), rule, i)
  {
    var ids := Take(Seed(tok, text), maxIds);
    NormalTo(ids, tok.merges, 0);
    assert tok.merges[0..] == tok.merges;
    var j :| 0 <= j < |tok.merges| && tok.merges[j] == rule;
    assert NoPair(MergeAll(ids, tok.merges), tok.merges[j], |ids|);
  }

  /** One rule leaves no pair of its own behind, whatever the input, exactly when it settles. */
  lemma SettlesIff(rule: Rule)
    ensures (forall ids: seq<nat> :: NoPair(PassFrom(ids, rule, 0), rule, |ids|)) <==> Settles(rule)
  {
    if Settles(rule) {
      forall ids: seq<nat> ensures NoPair(PassFrom(ids, rule, 0), rule, |ids|) { PassSettles(ids, rule, 0); }
    } else {
      var ids := [rule.a, rule.a, rule.b];
      assert Replace(ids, rule, 1) == [rule.a, rule.b];
      assert PassFrom(ids, rule, 0) == PassFrom(ids, rule, 1) == PassFrom([rule.a, rule.b], rule, 1) == [rule.a, rule.b];
      assert Match([rule.a, rule.b], rule, 0);
      assert !NoPair(PassFrom(ids, rule, 0), rule, |ids|);
    }
  }

  /** A later rule whose result takes part in an earlier one can bring its pair back. */
  lemma LaterRuleUndoes()
    ensures
      var (first, second) := (Rule(1, 2, 3), Rule(4, 5, 1));
      Settles(first) && Settles(second) && MergeAll([4, 5, 2], [first, second]) == [1, 2] && Match([1, 2], first, 0)
  {
    var (first, second) := (Rule(1, 2, 3), Rule(4, 5, 1));
    assert PassFrom([4, 5, 2], first, 1) == [4, 5, 2];
    assert PassFrom([4, 5, 2], first, 0) == [4, 5, 2];
    assert Replace([4, 5, 2], second, 0) == [1, 2];
    assert PassFrom([1, 2], second, 0) == PassFrom([1, 2], second, 1) == [1, 2];
    assert PassFrom([4, 5, 2], second, 0) == [1, 2];
    assert [first, second][1..] == [second] && [second][1..] == [];
    assert MergeAll([1, 2], []) == [1, 2];
    assert MergeAll([4, 5, 2], [second]) == [1, 2];
  }
}
