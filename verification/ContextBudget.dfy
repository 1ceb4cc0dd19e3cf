/** The RAG prompt budget (context_budget.cpp) and the generator's token limit (llama_generator.cpp).

    The token counter is an arbitrary function: neither monotone nor additive. Sums are 64-bit. */
module ContextBudget {
  import opened Base

  datatype Source = Source(id: string, path: string, startLine: nat, endLine: nat, content: string)

  datatype Budget = Budget(modelContext: u64, reserved: u64, safety: u64)

  datatype Prompt = Prompt(text: string, retained: seq<Source>, tokenCount: nat, skipped: nat)

  /** The fixed texts around the sources and the question: any instructions, any rendering. */
  datatype Texts = Texts(system: string, source: Source -> string, suffix: string -> string)

  // ---------------------------------------------------------------- which sources stay

  function Kept(sources: seq<Source>, flags: seq<bool>): seq<Source>
    requires |flags| == |sources|
  {
    if sources == [] then []
    else
      var n := |sources| - 1;
      Kept(sources[..n], flags[..n]) + if flags[n] then [sources[n]] else []
  }

  function Skipped(flags: seq<bool>): nat {
    if flags == [] then 0 else Skipped(flags[..|flags| - 1]) + if flags[|flags| - 1] then 0 else 1
  }

  function Body(t: Texts, retained: seq<Source>): string {
    if retained == [] then t.system else Body(t, retained[..|retained| - 1]) + t.source(retained[|retained| - 1])
  }

  /** Source i fits behind the sources kept before it. */
  predicate FitsAt(t: Texts, sources: seq<Source>, flags: seq<bool>, i: nat, suffix: string, max: nat,
                   count: string -> nat)
    requires i < |sources| && i <= |flags|
  {
    count(Body(t, Kept(sources[..i], flags[..i])) + t.source(sources[i]) + suffix) <= max
  }

  /** Exactly the sources that fit at their turn are kept. */
  predicate GreedyFlags(t: Texts, sources: seq<Source>, flags: seq<bool>, suffix: string, max: nat,
                        count: string -> nat) {
    |flags| == |sources| && forall i :: 0 <= i < |flags| ==>
        flags[i] == FitsAt(t, sources, flags, i, suffix, max, count)
  }

  /** The choice is determined: there is one way to keep exactly what fits at its turn. */
  lemma {:induction false} FlagsAreUnique(t: Texts, sources: seq<Source>, a: seq<bool>, b: seq<bool>, suffix: string,
                                          max: nat, count: string -> nat, n: nat)
    requires GreedyFlags(t, sources, a, suffix, max, count) && GreedyFlags(t, sources, b, suffix, max, count)
        && n <= |a|
    ensures a[..n] == b[..n]
    decreases n
  {
    if n > 0 {
      FlagsAreUnique(t, sources, a, b, suffix, max, count, n - 1);
      FitDependsOnPrefix(t, sources, a, b, n - 1, suffix, max, count);
      assert a[n - 1] == b[n - 1];
      SplitLast(a[..n]);
      SplitLast(b[..n]);
      assert a[..n][..n - 1] == a[..n - 1] && b[..n][..n - 1] == b[..n - 1];
    }
  }

  lemma {:induction false} FitDependsOnPrefix(t: Texts, sources: seq<Source>, a: seq<bool>, b: seq<bool>, i: nat,
                                              suffix: string, max: nat, count: string -> nat)
    requires i < |sources| && i <= |a| && i <= |b| && a[..i] == b[..i]
    ensures FitsAt(t, sources, a, i, suffix, max, count) == FitsAt(t, sources, b, i, suffix, max, count)
  {
  }

  /** Kept and skipped sources together are all sources, and the kept ones stand in their order. */
  lemma {:induction false} KeptAndSkipped(sources: seq<Source>, flags: seq<bool>)
    requires |flags| == |sources|
    ensures |Kept(sources, flags)| + Skipped(flags) == |sources|
    decreases |sources|
  {
    if sources != [] { KeptAndSkipped(sources[..|sources| - 1], flags[..|sources| - 1]); }
  }

  lemma {:induction false} PlacesAppend(sources: seq<Source>, flags: seq<bool>, before: seq<nat>, places: seq<nat>)
    requires 0 < |flags| == |sources|
    requires var n := |sources| - 1;
             && |Kept(sources[..n], flags[..n])| == |before|
             && (forall i :: 0 <= i < |before| ==> before[i] < n && flags[before[i]]
                                                   && Kept(sources[..n], flags[..n])[i] == sources[before[i]])
             && places == before + if flags[n] then [n] else []
    ensures |Kept(sources, flags)| == |places|
    ensures forall i :: 0 <= i < |places| ==>
              places[i] < |sources| && flags[places[i]] && Kept(sources, flags)[i] == sources[places[i]]
  {
  }

  /** The kept sources are those at the flagged places, in their order. */
  lemma {:induction false} KeptMeans(sources: seq<Source>, flags: seq<bool>) returns (places: seq<nat>)
    requires |flags| == |sources|
    ensures |Kept(sources, flags)| == |places|
    ensures forall i, j :: 0 <= i < j < |places| ==> places[i] < places[j]
    ensures forall i :: 0 <= i < |places| ==>
              places[i] < |sources| && flags[places[i]] && Kept(sources, flags)[i] == sources[places[i]]
    ensures forall n :: 0 <= n < |flags| && flags[n] ==> n in places
    decreases |sources|
  {
    if sources == [] {
      places := [];
    } else {
      var n := |sources| - 1;
      var before := KeptMeans(sources[..n], flags[..n]);
      places := before + if flags[n] then [n] else [];
      forall k | 0 <= k < |flags| && flags[k] ensures k in places {
        if k < n {
          assert flags[..n][k] && k in before;
        } else {
          assert places[|before|] == n;
        }
      }
      PlacesAppend(sources, flags, before, places);
    }
  }

  /** The text begins with the instructions, each kept source stands right behind the text of those before it,
      and nothing follows the last one. */
  lemma {:induction false} BodyMeans(t: Texts, retained: seq<Source>, i: nat)
    requires i < |retained|
    ensures Body(t, []) == t.system
    ensures Body(t, retained[..i]) + t.source(retained[i]) <= Body(t, retained)
    ensures i == |retained| - 1 ==> Body(t, retained[..i]) + t.source(retained[i]) == Body(t, retained)
    decreases |retained|
  {
    var n := |retained| - 1;
    if i < n {
      BodyMeans(t, retained[..n], i);
      assert retained[..n][..i] == retained[..i];
      Longer(Body(t, retained[..i]) + t.source(retained[i]), Body(t, retained[..n]), Body(t, retained));
    }
  }

  // ---------------------------------------------------------------- the budget

  function Sub64(a: u64, b: u64): u64 {
    if a >= b then a - b else a - b + U64_MODULUS
  }

  predicate Accepted(b: Budget) {
    b.modelContext > 0 && b.reserved > 0 && Add64(b.reserved, b.safety) < b.modelContext
  }

  function MaxPrompt(b: Budget): u64 {
    Sub64(Sub64(b.modelContext, b.reserved), b.safety)
  }

  /** A budget is refused when a part of it is zero or, modulo 2^64, reserved and safety leave nothing; unless they
      wrap, the limit is what they leave. */
  lemma {:induction false} BudgetMeans(b: Budget)
    ensures Accepted(b) <==>
            b.modelContext > 0 && b.reserved > 0 && (b.reserved + b.safety) % U64_MODULUS < b.modelContext
    ensures Accepted(b) ==> MaxPrompt(b) == b.modelContext - (b.reserved + b.safety) % U64_MODULUS
  {
    assert b.reserved + b.safety < U64_MODULUS ==> (b.reserved + b.safety) % U64_MODULUS == b.reserved + b.safety;
    assert b.reserved + b.safety >= U64_MODULUS ==>
        (b.reserved + b.safety) % U64_MODULUS == b.reserved + b.safety - U64_MODULUS;
  }

  /** generate(): what a request for `requested` tokens after a prompt of `prompt` tokens is cut to. */
  function TokenLimit(contextSize: nat, prompt: nat, requested: nat): Outcome<nat> {
    if prompt == 0 then Threw(RuntimeError)
    else if prompt >= contextSize then Threw(InvalidArgument)
    else
      var available := contextSize - prompt;
      Returned(if available <= requested then available else requested)
  }

  /** The generator, run with the budget's context size, leaves the reserved tokens to every prompt
      the budget allows. */
  ghost predicate NeverCut(b: Budget) {
    forall p: nat :: 1 <= p <= MaxPrompt(b) ==> TokenLimit(b.modelContext, p, b.reserved) == Returned(b.reserved)
  }

  /** An accepted budget keeps its promise exactly when reserved + safety does not wrap. */
  lemma {:induction false} NeverCutExactly(b: Budget)
    requires Accepted(b)
    ensures NeverCut(b) <==> b.reserved + b.safety < U64_MODULUS
    ensures b.reserved + b.safety < U64_MODULUS ==> MaxPrompt(b) + b.reserved + b.safety == b.modelContext
  {
    var p: nat := MaxPrompt(b);
    if b.reserved + b.safety >= U64_MODULUS {
      assert p == b.modelContext - Add64(b.reserved, b.safety);
      assert TokenLimit(b.modelContext, p, b.reserved) != Returned(b.reserved);
    }
  }

  /** An accepted budget that wraps, and a prompt within it that leaves 4 of the 5 reserved tokens. */
  lemma {:induction false} WrapExample()
    ensures var b := Budget(10, 5, 0xFFFF_FFFF_FFFF_FFFF);
            Accepted(b) && MaxPrompt(b) == 6 && TokenLimit(10, 6, b.reserved) == Returned(4)
  {
  }

  // ---------------------------------------------------------------- the loop

  method Build(t: Texts, question: string, sources: seq<Source>, count: string -> nat, b: Budget)
    returns (r: Outcome<Prompt>, ghost flags: seq<bool>)
    ensures r.Threw? <==> question == "" || !Accepted(b) || count(t.system + t.suffix(question)) > MaxPrompt(b)
    ensures r.Threw? ==> r.error == InvalidArgument
    ensures r.Returned? ==>
              && GreedyFlags(t, sources, flags, t.suffix(question), MaxPrompt(b), count)
              && r.value.retained == Kept(sources, flags)
              && r.value.skipped == Skipped(flags) && |r.value.retained| + r.value.skipped == |sources|
              && r.value.text == Body(t, r.value.retained) + t.suffix(question)
              && r.value.tokenCount == count(r.value.text) <= MaxPrompt(b)
  {
    flags := [];
    if question == "" {
      return Threw(InvalidArgument), [];
    }
    if b.modelContext == 0 || b.reserved == 0 {
      return Threw(InvalidArgument), [];
    }
    if Add64(b.reserved, b.safety) >= b.modelContext {
      return Threw(InvalidArgument), [];
    }
    var max := MaxPrompt(b);
    var text := t.system;
    var suffix := t.suffix(question);
    if count(text + suffix) > max {
      return Threw(InvalidArgument), [];
    }
    var retained: seq<Source> := [];
    var skipped := 0;
    var i := 0;
    while i < |sources|
      invariant 0 <= i <= |sources| && |flags| == i
      invariant GreedyFlags(t, sources[..i], flags, suffix, max, count)
      invariant retained == Kept(sources[..i], flags) && skipped == Skipped(flags)
      invariant text == Body(t, retained) && count(text + suffix) <= max
    {
      var candidate := text + t.source(sources[i]) + suffix;
      var fits := count(candidate) <= max;
      NextFlag(t, sources, flags, i, suffix, max, count, fits);
      flags := flags + [fits];
      if !fits {
        skipped := skipped + 1;
      } else {
        text := text + t.source(sources[i]);
        retained := retained + [sources[i]];
      }
      i := i + 1;
    }
    assert sources[..i] == sources;
    KeptAndSkipped(sources, flags);
    text := text + suffix;
    var tokenCount := count(text);
    r := Returned(Prompt(text, retained, tokenCount, skipped));
  }

  lemma {:induction false} NextFlag(t: Texts, sources: seq<Source>, flags: seq<bool>, i: nat, suffix: string, max: nat,
                                    count: string -> nat, fits: bool)
    requires i < |sources| && |flags| == i && GreedyFlags(t, sources[..i], flags, suffix, max, count)
    requires fits == (count(Body(t, Kept(sources[..i], flags)) + t.source(sources[i]) + suffix) <= max)
    ensures GreedyFlags(t, sources[..i + 1], flags + [fits], suffix, max, count)
    ensures Kept(sources[..i + 1], flags + [fits]) == Kept(sources[..i], flags) + if fits then [sources[i]] else []
    ensures Skipped(flags + [fits]) == Skipped(flags) + if fits then 0 else 1
  {
    var more, longer := sources[..i + 1], flags + [fits];
    assert more[..i] == sources[..i] && longer[..i] == flags;
    forall j | 0 <= j < |longer| ensures longer[j] == FitsAt(t, more, longer, j, suffix, max, count) {
      assert more[..j] == sources[..i][..j] && longer[..j] == flags[..j];
      if j < i { assert flags[j] == FitsAt(t, sources[..i], flags, j, suffix, max, count); }
    }
  }
}
