/** The tokenizer's loops on their buffers (src/llm/llm_tokenizer.c), each proved to
    compute the encoding or decoding of module Bpe. */
module BpeLoop {
  import opened Bpe

  /** tok_match */
  method TokMatch(tok: Tokenizer, id: nat, s: seq<byte>) returns (same: bool)
    ensures same == (Str(tok, id) == s)
  {
    var ts := Str(tok, id);
    if |ts| != |s| {
      return false;
    }
    for i := 0 to |s|
      invariant ts[..i] == s[..i]
    {
      if ts[i] != s[i] {
        return false;
      }
    }
    return true;
  }

  /** tok_find */
  method TokFind(tok: Tokenizer, s: seq<byte>) returns (id: nat)
    ensures id == Find(tok, s)
  {
    for i := 0 to |tok.vocab|
      invariant Find(tok, s) == FindFrom(tok, s, i)
    {
      var same := TokMatch(tok, i, s);
      if same {
        return i;
      }
    }
    return 0;
  }

  /** The characters before the terminator. */
  function Content(text: seq<byte>): (r: seq<byte>)
    requires 0 in text
    ensures |r| < |text| && 0 !in r
  {
    if text[0] == 0 then []
    else
      assert text == [text[0]] + text[1..];
      [text[0]] + Content(text[1..])
  }

  lemma ContentAt(text: seq<byte>, n: nat)
    requires n < |text| && 0 in text[n..]
    ensures text[n] == 0 ==> Content(text[n..]) == []
    ensures text[n] != 0 ==> 0 in text[n + 1..] && Content(text[n..]) == [text[n]] + Content(text[n + 1..])
  {
    assert text[n..] == [text[n]] + text[n + 1..];
  }

  method TextLength(text: seq<byte>) returns (n: nat)
    requires 0 in text
    ensures n < |text| && text[..n] == Content(text)
  {
    n := 0;
    FromStart(text);
    ContentAt(text, 0);
    hide Content;
    while text[n] != 0
      invariant n < |text| && 0 in text[n..] && text[..n] + Content(text[n..]) == Content(text)
      decreases |text| - n
    {
      ContentAt(text, n);
      Regroup(text[..n], [text[n]], Content(text[n + 1..]));
      assert text[..n + 1] == text[..n] + [text[n]];
      n := n + 1;
    }
    ContentAt(text, n);
  }

  // ---------------------------------------------------------------- seeding

  lemma TakeMore(tok: Tokenizer, text: seq<byte>, maxIds: int)
    requires text != []
    ensures Take(Seed(tok, text), maxIds)
         == if |text| < maxIds then Take(Seed(tok, text[..|text| - 1]), maxIds) + [Find(tok, Symbol(text[|text| - 1]))]
            else Take(Seed(tok, text[..|text| - 1]), maxIds)
  {
  }

  lemma TakeFirst(tok: Tokenizer, text: seq<byte>, maxIds: int)
    ensures Take(Seed(tok, text[..0]), maxIds) == if 0 < maxIds then [Find(tok, MARK)] else []
  {
    assert text[..0] == [];
  }

  method Append(ids: array<nat>, n: nat, maxIds: int, id: nat) returns (n': nat)
    requires maxIds <= ids.Length && (maxIds > 0 ==> n <= maxIds) && (maxIds <= 0 ==> n == 0)
    modifies ids
    ensures n' == (if n < maxIds then n + 1 else n)
    ensures n <= n' <= ids.Length && ids[..n'] == old(ids[..n]) + (if n < maxIds then [id] else [])
  {
    n' := n;
    if n' < maxIds {
      ids[n'] := id;
      n' := n' + 1;
    }
  }

  /** One token for the marker and each character, as many as fit. */
  method SeedInto(tok: Tokenizer, text: seq<byte>, ids: array<nat>, maxIds: int) returns (n: nat)
    requires maxIds <= ids.Length
    modifies ids
    ensures n <= ids.Length && ids[..n] == Take(Seed(tok, text), maxIds)
  {
    hide Find, Seed, Take;
    var first := TokFind(tok, MARK);
    TakeFirst(tok, text, maxIds);
    n := Append(ids, 0, maxIds, first);
    var i := 0;
    while i < |text| && n < maxIds
      invariant i <= |text| && n <= ids.Length && ids[..n] == Take(Seed(tok, text[..i]), maxIds)
      invariant maxIds > 0 ==> n == if i + 1 <= maxIds then i + 1 else maxIds
    {
      var c := text[i];
      var id;
      if c == SPACE {
        id := TokFind(tok, MARK);
      } else {
        id := TokFind(tok, [c]);
      }
      n := Append(ids, n, maxIds, id);
      assert text[..i + 1][..i] == text[..i];
      TakeMore(tok, text[..i + 1], maxIds);
      i := i + 1;
    }
    FullStays(tok, text, i, maxIds, n);
    assert text[..|text|] == text;
  }

  /** Once the buffer is full, further characters change nothing. */
  lemma {:induction false} FullStays(tok: Tokenizer, text: seq<byte>, i: nat, maxIds: int, n: nat)
    requires i <= |text| && (i == |text| || n >= maxIds) && n == |Take(Seed(tok, text[..i]), maxIds)|
    ensures Take(Seed(tok, text), maxIds) == Take(Seed(tok, text[..i]), maxIds)
    decreases |text| - i
  {
    if i == |text| {
      assert text[..i] == text;
    } else {
      assert text[..i + 1][..i] == text[..i];
      TakeMore(tok, text[..i + 1], maxIds);
      FullStays(tok, text, i + 1, maxIds, n);
    }
  }

  // ---------------------------------------------------------------- merging

  /** Element i + 1 drops out. */
  method ShiftLeft(ids: array<nat>, i: nat, n: nat)
    requires i + 1 < n <= ids.Length
    modifies ids
    ensures ids[..n - 1] == old(ids[..i + 1]) + old(ids[i + 2..n])
  {
    for j := i + 1 to n - 1
      invariant forall k :: 0 <= k <= i ==> ids[k] == old(ids[k])
      invariant forall k :: i + 1 <= k < j ==> ids[k] == old(ids[k + 1])
      invariant forall k :: j <= k < n ==> ids[k] == old(ids[k])
    {
      ids[j] := ids[j + 1];
    }
    ghost var goal := old(ids[..i + 1]) + old(ids[i + 2..n]);
    assert forall k :: 0 <= k < n - 1 ==> goal[k] == if k <= i then old(ids[k]) else old(ids[k + 1]);
  }

  lemma MergedIs(ids: seq<nat>, rule: Rule, i: nat)
    requires i + 1 < |ids|
    ensures ids[i := rule.r][..i + 1] + ids[i := rule.r][i + 2..] == Replace(ids, rule, i)
  {
    assert ids[i := rule.r][..i + 1] == ids[..i] + [rule.r];
  }

  /** The pair at i becomes one id and the ids behind it move up. */
  method MergeAt(ids: array<nat>, i: nat, n: nat, rule: Rule)
    requires i + 1 < n <= ids.Length
    modifies ids
    ensures ids[..n - 1] == Replace(old(ids[..n]), rule, i)
  {
    ghost var was := ids[..n];
    ids[i] := rule.r;
    assert ids[..n] == was[i := rule.r];
    MergedIs(was, rule, i);
    assert ids[..i + 1] == ids[..n][..i + 1] && ids[i + 2..n] == ids[..n][i + 2..];
    ShiftLeft(ids, i, n);
  }

  /** One rule over the array.  The variable i goes down by one after a merge and up by one
      at the end of every round, so a merge is looked at again in place. */
  method MergePass(ids: array<nat>, n: nat, rule: Rule) returns (n': nat)
    requires n <= ids.Length
    modifies ids
    ensures n' <= n && ids[..n'] == PassFrom(old(ids[..n]), rule, 0)
  {
    n' := n;
    var i: int := 0;
    while i < n' - 1
      invariant 0 <= i && n' <= n && PassFrom(ids[..n'], rule, i) == PassFrom(old(ids[..n]), rule, 0)
      decreases n' - i
    {
      if ids[i] == rule.a && ids[i + 1] == rule.b {
        MergeAt(ids, i, n', rule);
        n' := n' - 1;
        i := i - 1;
      }
      i := i + 1;
    }
  }

  /** llm_tokenizer_encode, for a terminated text. */
  method Encode(tok: Tokenizer, text: seq<byte>, ids: array<nat>, maxIds: int) returns (n: nat)
    requires 0 in text && maxIds <= ids.Length
    modifies ids
    ensures n <= ids.Length && ids[..n] == Encoded(tok, Content(text), maxIds)
  {
    var length := TextLength(text);
    n := SeedInto(tok, text[..length], ids, maxIds);
    ghost var goal := MergeAll(ids[..n], tok.merges);
    var mi := 0;
    while mi < |tok.merges| && n > 1
      invariant mi <= |tok.merges| && n <= ids.Length && MergeAll(ids[..n], tok.merges[mi..]) == goal
    {
      assert tok.merges[mi..][1..] == tok.merges[mi + 1..];
      n := MergePass(ids, n, tok.merges[mi]);
      mi := mi + 1;
    }
    if n <= 1 { ShortStays(ids[..n], tok.merges[mi..]); }
  }

  // ---------------------------------------------------------------- decoding

  /** llm_tokenizer_decode: the text with spaces for markers, cut to the buffer, and a
      terminator. */
  method DecodeInto(tok: Tokenizer, id: nat, buf: array<byte>, bufLen: nat)
    requires 0 < bufLen <= buf.Length
    modifies buf
    ensures
      var text := Unmark(Str(tok, id));
      var n := if |text| < bufLen then |text| else bufLen - 1;
      buf[..n] == text[..n] && buf[n] == 0
  {
    hide Unmark;
    var s := Str(tok, id);
    ghost var text := Unmark(s);
    var o: nat := 0;
    var i: nat := 0;
    assert s[0..] == s && buf[..0] + Unmark(s[0..]) == text;
    while i < |s| && o < bufLen - 1
      invariant i <= |s| && o <= bufLen - 1 && buf[..o] + Unmark(s[i..]) == text
    {
      UnmarkAt(s, i);
      ghost var was, rest := buf[..o], Unmark(s[i..]);
      if i + 2 < |s| && s[i] == 0xE2 && s[i + 1] == 0x96 && s[i + 2] == 0x81 {
        buf[o] := SPACE;
        o := o + 1;
        i := i + 2;
      } else {
        buf[o] := s[i];
        o := o + 1;
      }
      i := i + 1;
      assert buf[..o] == was + [buf[o - 1]] && rest == [buf[o - 1]] + Unmark(s[i..]);
    }
    NothingLeft(s, i);
    assert |text| == o + |Unmark(s[i..])| && text[..o] == buf[..o];
    buf[o] := 0;
  }

  lemma NothingLeft(s: seq<byte>, i: nat)
    requires i <= |s|
    ensures i == |s| ==> Unmark(s[i..]) == []
  {
  }
}
