/** Greedy generation as a function: what a deterministic chooser emits after a prompt
    (src/llm/llm_forward.c, llm_generate). */
module Generation {

  /** The token to emit next and the tokens chosen lately. */
  datatype Choice = Choice(next: nat, recent: seq<nat>)

  /** Chooses from all the tokens so far and the recent choices. */
  type Chooser = (seq<nat>, seq<nat>) -> Choice

  /** After reading a prompt: token 0 for an empty one. */
  function Prompted(choose: Chooser, prompt: seq<nat>): Choice {
    if prompt == [] then Choice(0, []) else choose(prompt, Prompted(choose, prompt[..|prompt| - 1]).recent)
  }

  /** The tokens emitted from a choice on: up to eos or the step limit. */
  function Emitted(choose: Chooser, toks: seq<nat>, c: Choice, steps: nat, eos: nat): (out: seq<nat>)
    ensures |out| <= steps && eos !in out
    decreases steps
  {
    if steps == 0 || c.next == eos then []
    else
      var toks' := toks + [c.next];
      [c.next] + Emitted(choose, toks', choose(toks', c.recent), steps - 1, eos)
  }

  /** The choice after the tokens of `out` have followed. */
  function ChoiceAfter(choose: Chooser, toks: seq<nat>, c: Choice, out: seq<nat>): Choice
    decreases |out|
  {
    if out == [] then c else choose(toks + out, ChoiceAfter(choose, toks, c, out[..|out| - 1]).recent)
  }

  /** Every token emitted is the choice after all those before it, and emission ends at the
      limit or because the next choice is eos. */
  lemma {:induction false} EmittedIs(choose: Chooser, toks: seq<nat>, c: Choice, steps: nat, eos: nat, k: nat)
    requires k <= |Emitted(choose, toks, c, steps, eos)|
    ensures
      var out := Emitted(choose, toks, c, steps, eos);
      if k < |out| then out[k] == ChoiceAfter(choose, toks, c, out[..k]).next
      else k == steps || ChoiceAfter(choose, toks, c, out).next == eos
    decreases steps
  {
    var out := Emitted(choose, toks, c, steps, eos);
    if k == 0 {
      assert out[..0] == [];
    } else {
      var (toks', c') := (toks + [c.next], choose(toks + [c.next], c.recent));
      EmittedIs(choose, toks', c', steps - 1, eos, k - 1);
      var rest := out[1..];
      ChoiceShifts(choose, toks, c, c.next, rest[..k - 1]);
      assert out[..k] == [c.next] + rest[..k - 1] && rest[..|rest|] == rest && out == [c.next] + rest;
    }
  }

  lemma {:induction false} ChoiceShifts(choose: Chooser, toks: seq<nat>, c: Choice, t: nat, out: seq<nat>)
    ensures ChoiceAfter(choose, toks, c, [t] + out) == ChoiceAfter(choose, toks + [t], choose(toks + [t], c.recent), out)
    decreases |out|
  {
    if out == [] {
      assert [t] + out == [t] && [t][..0] == [];
    } else {
      var n := |out| - 1;
      ChoiceShifts(choose, toks, c, t, out[..n]);
      assert ([t] + out)[..n + 1] == [t] + out[..n];
      assert toks + ([t] + out) == toks + [t] + out;
    }
  }

  /** The choice after one more prompt token. */
  lemma PromptedStep(choose: Chooser, prompt: seq<nat>, i: nat)
    requires i < |prompt|
    ensures prompt[..i] + [prompt[i]] == prompt[..i + 1]
    ensures Prompted(choose, prompt[..i + 1]) == choose(prompt[..i + 1], Prompted(choose, prompt[..i]).recent)
  {
    assert prompt[..i + 1][..i] == prompt[..i];
  }

  /** What is out and what a choice still emits make up the goal. */
  predicate Remaining(choose: Chooser, out: seq<nat>, toks: seq<nat>, c: Choice, steps: nat, eos: nat, goal: seq<nat>) {
    out + Emitted(choose, toks, c, steps, eos) == goal
  }

  lemma Begin(choose: Chooser, toks: seq<nat>, c: Choice, steps: nat, eos: nat)
    ensures Remaining(choose, [], toks, c, steps, eos, Emitted(choose, toks, c, steps, eos))
  {
    assert [] + Emitted(choose, toks, c, steps, eos) == Emitted(choose, toks, c, steps, eos);
  }

  lemma Progress(choose: Chooser, out: seq<nat>, toks: seq<nat>, c: Choice, steps: nat, eos: nat, goal: seq<nat>)
    requires Remaining(choose, out, toks, c, steps, eos, goal) && steps > 0 && c.next != eos
    ensures Remaining(choose, out + [c.next], toks + [c.next], choose(toks + [c.next], c.recent), steps - 1, eos, goal)
  {
    var toks' := toks + [c.next];
    var rest := Emitted(choose, toks', choose(toks', c.recent), steps - 1, eos);
    assert (out + [c.next]) + rest == out + ([c.next] + rest);
  }

  lemma Finished(choose: Chooser, out: seq<nat>, toks: seq<nat>, c: Choice, steps: nat, eos: nat, goal: seq<nat>)
    requires Remaining(choose, out, toks, c, steps, eos, goal) && (steps == 0 || c.next == eos)
    ensures out == goal
  {
  }
}
