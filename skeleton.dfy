/** The small pure pieces of the command-line skeleton: `fib`, the join that turns the
    prompt's words into one prompt, and the configuration written when none exists. */
module Skeleton {
  import opened Text

  // ------------------------------------------------------------------- fib

  /** The Fibonacci numbers, F(0) = 0, F(1) = F(2) = 1. */
  function Fibonacci(n: nat): nat {
    if n == 0 then 0
    else if n == 1 then 1
    else Fibonacci(n - 1) + Fibonacci(n - 2)
  }

  /** `fib(n)`: the pair `a, b` starts at 1, 1 and is advanced `n - 1` times; `a` is the
      result. The source asserts `n > 0`. */
  method Fib(n: int) returns (r: int)
    requires n > 0
    ensures r == Fibonacci(n)
  {
    var a, b := 1, 1;
    for i := 0 to n - 1
      invariant a == Fibonacci(i + 1) && b == Fibonacci(i + 2)
    {
      a, b := b, a + b;
    }
    r := a;
  }

  /** Every value `fib` can return is at least 1. */
  lemma {:induction false} FibPositive(n: nat)
    requires n >= 1
    ensures Fibonacci(n) >= 1
  {
    if n > 2 {
      FibPositive(n - 1);
    }
  }

  /** `fib` is non-decreasing on the arguments it accepts. */
  lemma {:induction false} FibMonotone(m: nat, n: nat)
    requires 1 <= m <= n
    ensures Fibonacci(m) <= Fibonacci(n)
    decreases n - m
  {
    if m < n {
      FibMonotone(m, n - 1);
      if n >= 2 {
        assert Fibonacci(n) == Fibonacci(n - 1) + Fibonacci(n - 2);
      }
    }
  }

  // --------------------------------------------------------------- prompt

  /** `" ".join(user_prompt)`: the words given on the command line as one prompt. */
  function CombinedPrompt(words: seq<string>): string {
    Join(words, ' ')
  }

  /** Where the `i`-th word starts in the combined prompt: after the earlier words and
      one space after each. */
  function WordStart(words: seq<string>, i: nat): nat
    requires i <= |words|
  {
    if i == 0 then 0 else WordStart(words, i - 1) + |words[i - 1]| + 1
  }

  /** The combined prompt holds every word, in order, each one space after the end of
      the word before. */
  lemma {:induction false} PromptHoldsWords(words: seq<string>, i: nat)
    requires i < |words|
    ensures OccursAt(CombinedPrompt(words), words[i], WordStart(words, i))
  {
    if |words| > 1 {
      var rest := words[1..];
      var tail := CombinedPrompt(rest);
      assert CombinedPrompt(words) == words[0] + [' '] + tail;
      if i > 0 {
        PromptHoldsWords(rest, i - 1);
        StartShift(words, i);
        var k := WordStart(rest, i - 1);
        assert CombinedPrompt(words)[|words[0]| + 1 + k..|words[0]| + 1 + k + |words[i]|]
          == tail[k..k + |words[i]|];
      }
    }
  }

  lemma {:induction false} StartShift(words: seq<string>, i: nat)
    requires 0 < i <= |words|
    ensures WordStart(words, i) == |words[0]| + 1 + WordStart(words[1..], i - 1)
  {
    if i > 1 {
      StartShift(words, i - 1);
      assert words[1..][i - 2] == words[i - 1];
    }
  }

  /** Splitting the combined prompt on spaces gives the words back, when none of them
      holds a space itself. */
  lemma PromptSplitsBack(words: seq<string>)
    requires |words| >= 1
    requires forall i :: 0 <= i < |words| ==> ' ' !in words[i]
    ensures Split(CombinedPrompt(words), ' ') == words
  {
    SplitJoin(words, ' ');
  }

  // --------------------------------------------------------------- config

  /** The two kinds of model the configuration names. */
  const Roles: seq<string> := ["general", "code"]

  const GeneralPrompt: string := "based on the below prompt and without returning anything else, restructure it so that it is strictly understandable to a coding ai agent with json output for file changes:"
  const CodePrompt: string := "in very clear, concise manner, solve the below request:"

  /** The dictionary `create_default_config` writes and returns. */
  function DefaultConfig(): map<string, string> {
    map[
      "general_model" := "ollama_general",
      "general_prompt" := GeneralPrompt,
      "code_model" := "ollama_code",
      "code_prompt" := CodePrompt
    ]
  }

  /** Each role's entry names, as the default configuration spells them. */
  lemma RoleKeys()
    ensures Roles == ["general", "code"]
    ensures "general" + "_model" == "general_model" && "general" + "_prompt" == "general_prompt"
    ensures "code" + "_model" == "code_model" && "code" + "_prompt" == "code_prompt"
  {
    assert "general" + "_model" == "general_model";
    assert "general" + "_prompt" == "general_prompt";
    assert "code" + "_model" == "code_model";
    assert "code" + "_prompt" == "code_prompt";
  }

  /** The default configuration has a model entry and a prompt entry for each role and
      nothing else. */
  lemma DefaultConfigKeys()
    ensures forall k :: k in DefaultConfig() <==> exists r :: r in Roles && (k == r + "_model" || k == r + "_prompt")
  {
    RoleKeys();
  }

  /** Each role's model is the Ollama model named after the role. */
  lemma DefaultModels()
    ensures forall r :: r in Roles ==>
      r + "_model" in DefaultConfig() && DefaultConfig()[r + "_model"] == "ollama_" + r
  {
    RoleKeys();
    assert "ollama_" + "general" == "ollama_general";
    assert "ollama_" + "code" == "ollama_code";
  }

  /** Each default prompt ends with the colon that introduces the request after it. */
  lemma DefaultPrompts()
    ensures forall r :: r in Roles ==>
      r + "_prompt" in DefaultConfig() && EndsWith(DefaultConfig()[r + "_prompt"], ":")
  {
    RoleKeys();
    PromptEndsWithColon(GeneralPrompt);
    PromptEndsWithColon(CodePrompt);
  }

  lemma PromptEndsWithColon(p: string)
    requires |p| >= 1 && p[|p| - 1] == ':'
    ensures EndsWith(p, ":")
  {
    assert p[|p| - 1..] == [':'];
  }
}
