/** The Vyper integration: the checks and the command line `compile_contract` builds
    before it runs the compiler, and the text analysis of `analyze_contract`. */
module Vyper {
  import opened Wrappers
  import opened Text

  // ------------------------------------------------------------ compiling

  /** An optional argument counts when it is present and not empty (`if output_format:`).
      The output format is present unless the caller overrides it, since it defaults to
      `"abi"`; the optimisation mode and the EVM version default to absent. */
  predicate Given(o: Option<string>) {
    o.Some? && o.value != ""
  }

  /** The argument as the compiler receives it: present only when it counts. */
  function Passed(o: Option<string>): (r: Option<string>)
    ensures r.Some? <==> Given(o)
    ensures r.Some? ==> r == o
  {
    if Given(o) then o else None
  }

  /** The pair `[flag, value]` the command gets for an option, or nothing. */
  function Flag(name: string, o: Option<string>): (r: seq<string>)
    ensures |r| == if Given(o) then 2 else 0
  {
    if Given(o) then [name, o.value] else []
  }

  /** The output format `compile_contract` uses when the caller names none. */
  const DefaultFormat: Option<string> := Some("abi")

  /** With every option left at its default, the compiler is asked for the ABI and
      nothing else. */
  lemma DefaultCommand(path: string)
    ensures Command(path, DefaultFormat, None, None) == ["vyper", "-f", "abi", path]
  {
  }

  /** The command line: the compiler, the options that count in a fixed order, then the
      contract. */
  function Command(path: string, format: Option<string>, optimize: Option<string>, evmVersion: Option<string>): seq<string> {
    ["vyper"] + Flag("-f", format) + Flag("--optimize", optimize) + Flag("--evm-version", evmVersion) + [path]
  }

  /** The validation and command construction of `compile_contract`: a missing file is
      reported first, then a name not ending in `.vy`; otherwise the command is built
      step by step. `found` is what `os.path.exists` says about the path. */
  method CompileCommand(path: string, found: bool, format: Option<string> := DefaultFormat,
                        optimize: Option<string> := None, evmVersion: Option<string> := None)
    returns (r: Result<seq<string>, string>)
    ensures !found ==> r == Err("File not found: " + path)
    ensures found && !EndsWith(path, ".vy") ==> r == Err("Not a Vyper file: " + path)
    ensures found && EndsWith(path, ".vy") ==> r == Ok(Command(path, format, optimize, evmVersion))
    ensures r.Ok? ==> |r.value| >= 2 && r.value[0] == "vyper" && r.value[|r.value| - 1] == path
  {
    if !found {
      return Err("File not found: " + path);
    }
    if !EndsWith(path, ".vy") {
      return Err("Not a Vyper file: " + path);
    }
    var cmd := ["vyper"];
    if Given(format) {
      cmd := cmd + ["-f", format.value];
    }
    assert cmd == ["vyper"] + Flag("-f", format);
    if Given(optimize) {
      cmd := cmd + ["--optimize", optimize.value];
    }
    assert cmd == ["vyper"] + Flag("-f", format) + Flag("--optimize", optimize);
    if Given(evmVersion) {
      cmd := cmd + ["--evm-version", evmVersion.value];
    }
    assert cmd == ["vyper"] + Flag("-f", format) + Flag("--optimize", optimize) + Flag("--evm-version", evmVersion);
    cmd := cmd + [path];
    return Ok(cmd);
  }

  /** What a command line asks the compiler for. */
  datatype Request = Request(format: Option<string>, optimize: Option<string>, evmVersion: Option<string>, path: string)

  /** Takes `name value` off the front of `args` when it is there. */
  function TakeFlag(name: string, args: seq<string>): (r: (Option<string>, seq<string>))
    ensures |r.1| <= |args|
  {
    if |args| >= 2 && args[0] == name then (Some(args[1]), args[2..]) else (None, args)
  }

  /** Reads a command line the way the compiler's argument order has it: `vyper`, the
      three optional flags in order, and exactly one file. */
  function ParseCommand(cmd: seq<string>): Option<Request> {
    if |cmd| == 0 || cmd[0] != "vyper" then None else ParseOptions(cmd[1..])
  }

  /** The arguments after `vyper`: the optional flags in order, then the one file. */
  function ParseOptions(args: seq<string>): Option<Request> {
    var (f, r1) := TakeFlag("-f", args);
    var (o, r2) := TakeFlag("--optimize", r1);
    var (e, r3) := TakeFlag("--evm-version", r2);
    if |r3| == 1 then Some(Request(f, o, e, r3[0])) else None
  }

  lemma TakeGiven(name: string, o: Option<string>, rest: seq<string>)
    requires |rest| >= 1 && rest[0] != name
    ensures TakeFlag(name, Flag(name, o) + rest) == (Passed(o), rest)
  {
    if Given(o) {
      assert (Flag(name, o) + rest)[2..] == rest;
    } else {
      assert Flag(name, o) + rest == rest;
    }
  }

  /** The command line `compile_contract` builds says exactly what it was asked: the
      options that count, in their own places, and the contract as the one file. The
      `.vy` ending keeps the path from being read as a flag. */
  lemma CommandRoundTrip(path: string, format: Option<string>, optimize: Option<string>, evmVersion: Option<string>)
    requires EndsWith(path, ".vy")
    ensures ParseCommand(Command(path, format, optimize, evmVersion))
      == Some(Request(Passed(format), Passed(optimize), Passed(evmVersion), path))
  {
    NotAFlag(path);
    var tail3 := [path];
    var tail2 := Flag("--evm-version", evmVersion) + tail3;
    var tail1 := Flag("--optimize", optimize) + tail2;
    var args := Flag("-f", format) + tail1;
    CommandArgs(path, format, optimize, evmVersion);
    TakeGiven("--evm-version", evmVersion, tail3);
    assert tail2[0] == "--evm-version" || tail2[0] == path;
    TakeGiven("--optimize", optimize, tail2);
    assert tail1[0] == "--optimize" || tail1[0] == "--evm-version" || tail1[0] == path;
    TakeGiven("-f", format, tail1);
    assert ParseOptions(args) == Some(Request(Passed(format), Passed(optimize), Passed(evmVersion), path));
  }

  /** The command is `vyper` in front of the options and the path, grouped from the end. */
  lemma CommandArgs(path: string, format: Option<string>, optimize: Option<string>, evmVersion: Option<string>)
    ensures var args := Flag("-f", format) + (Flag("--optimize", optimize) + (Flag("--evm-version", evmVersion) + [path]));
      && Command(path, format, optimize, evmVersion)[0] == "vyper"
      && Command(path, format, optimize, evmVersion)[1..] == args
  {
    var args := Flag("-f", format) + (Flag("--optimize", optimize) + (Flag("--evm-version", evmVersion) + [path]));
    assert Command(path, format, optimize, evmVersion) == ["vyper"] + args;
    assert (["vyper"] + args)[1..] == args;
  }

  /** A contract path is never mistaken for one of the option names. */
  lemma NotAFlag(path: string)
    requires EndsWith(path, ".vy")
    ensures path != "-f" && path != "--optimize" && path != "--evm-version"
  {
    assert path[|path| - 3..][2] == ".vy"[2];
  }

  // ------------------------------------------------------------ analysing

  /** The `features` dictionary of `analyze_contract`. */
  datatype Features = Features(
    pragma: bool, structs: bool, events: bool,
    externalFunctions: bool, internalFunctions: bool, viewFunctions: bool,
    pureFunctions: bool, payableFunctions: bool, interfaces: bool)

  /** `a in s or b in s and c in s`: `and` binds tighter. */
  function FeaturesOf(content: string): Features {
    Features(
      Contains(content, "#pragma") || Contains(content, "# @version"),
      Contains(content, "struct "),
      Contains(content, "event "),
      Contains(content, "@external"),
      Contains(content, "@internal"),
      Contains(content, "@view"),
      Contains(content, "@pure"),
      Contains(content, "@payable"),
      Contains(content, "interface ") || (Contains(content, "from ") && Contains(content, " import ")))
  }

  /** Each flag says that its marker occurs at some position of the contract. */
  lemma FeaturesAreOccurrences(content: string)
    ensures var f := FeaturesOf(content);
      && (f.pragma <==> (exists i :: OccursAt(content, "#pragma", i)) || (exists i :: OccursAt(content, "# @version", i)))
      && (f.structs <==> exists i :: OccursAt(content, "struct ", i))
      && (f.events <==> exists i :: OccursAt(content, "event ", i))
      && (f.externalFunctions <==> exists i :: OccursAt(content, "@external", i))
      && (f.internalFunctions <==> exists i :: OccursAt(content, "@internal", i))
      && (f.viewFunctions <==> exists i :: OccursAt(content, "@view", i))
      && (f.pureFunctions <==> exists i :: OccursAt(content, "@pure", i))
      && (f.payableFunctions <==> exists i :: OccursAt(content, "@payable", i))
      && (f.interfaces <==>
            (exists i :: OccursAt(content, "interface ", i))
            || ((exists i :: OccursAt(content, "from ", i)) && (exists i :: OccursAt(content, " import ", i))))
  {
    ContainsAt(content, "#pragma");
    ContainsAt(content, "# @version");
    ContainsAt(content, "struct ");
    ContainsAt(content, "event ");
    ContainsAt(content, "@external");
    ContainsAt(content, "@internal");
    ContainsAt(content, "@view");
    ContainsAt(content, "@pure");
    ContainsAt(content, "@payable");
    ContainsAt(content, "interface ");
    ContainsAt(content, "from ");
    ContainsAt(content, " import ");
  }

  datatype ContractType = Auction | Token | Voting | Crowdfund | Generic

  /** The `if`/`elif` chain: the first test that holds decides. */
  function ContractTypeOf(content: string): ContractType {
    if Contains(content, "def bid") && Contains(content, "@payable") then Auction
    else if Contains(content, "def transfer") && Contains(content, "balance") then Token
    else if Contains(content, "vote") && Contains(content, "proposal") then Voting
    else if Contains(AsciiLower(content), "crowdfund")
      || (Contains(AsciiLower(content), "fund") && Contains(content, "goal")) then Crowdfund
    else Generic
  }

  /** A marker the classification looks for, in the text as written or lower-cased. */
  datatype Marker = Marker(text: string, lowered: bool)

  /** A contract type and when it applies: one of the alternatives has all its markers. */
  datatype Rule = Rule(kind: ContractType, alternatives: seq<seq<Marker>>)

  predicate Has(content: string, m: Marker) {
    Contains(if m.lowered then AsciiLower(content) else content, m.text)
  }

  predicate Applies(content: string, rule: Rule) {
    exists a :: a in rule.alternatives && forall m :: m in a ==> Has(content, m)
  }

  /** The classification as a table, in the order it is tried. */
  const Rules: seq<Rule> := [AuctionRule, TokenRule, VotingRule, CrowdfundRule]

  const AuctionRule := Rule(Auction, [[Marker("def bid", false), Marker("@payable", false)]])
  const TokenRule := Rule(Token, [[Marker("def transfer", false), Marker("balance", false)]])
  const VotingRule := Rule(Voting, [[Marker("vote", false), Marker("proposal", false)]])
  const CrowdfundRule := Rule(Crowdfund, [[Marker("crowdfund", true)], [Marker("fund", true), Marker("goal", false)]])

  /** The kind of the first rule that applies, or `Generic`. */
  function FirstMatch(content: string, rules: seq<Rule>): ContractType {
    if rules == [] then Generic
    else if Applies(content, rules[0]) then rules[0].kind
    else FirstMatch(content, rules[1..])
  }

  /** A table read from the top: the result is the kind of a rule that applies and that
      no earlier rule does, or `Generic` when no rule applies. */
  lemma {:induction false} FirstMatchWins(content: string, rules: seq<Rule>)
    ensures var k := FirstMatch(content, rules);
      || (exists i :: 0 <= i < |rules| && rules[i].kind == k && Applies(content, rules[i])
            && forall j :: 0 <= j < i ==> !Applies(content, rules[j]))
      || (k == Generic && forall j :: 0 <= j < |rules| ==> !Applies(content, rules[j]))
  {
    if rules != [] && !Applies(content, rules[0]) {
      FirstMatchWins(content, rules[1..]);
      var k := FirstMatch(content, rules);
      if exists i :: 0 <= i < |rules[1..]| && rules[1..][i].kind == k && Applies(content, rules[1..][i])
          && forall j :: 0 <= j < i ==> !Applies(content, rules[1..][j]) {
        var i :| 0 <= i < |rules[1..]| && rules[1..][i].kind == k && Applies(content, rules[1..][i])
          && forall j :: 0 <= j < i ==> !Applies(content, rules[1..][j]);
        forall j | 0 <= j < i + 1 ensures !Applies(content, rules[j]) {
          if j > 0 {
            assert rules[j] == rules[1..][j - 1];
          }
        }
        assert rules[i + 1] == rules[1..][i];
      } else {
        forall j | 0 <= j < |rules| ensures !Applies(content, rules[j]) {
          if j > 0 {
            assert rules[j] == rules[1..][j - 1];
          }
        }
      }
    } else if rules != [] {
      assert 0 < |rules| && rules[0].kind == FirstMatch(content, rules);
    }
  }

  lemma AllOf2(content: string, a: Marker, b: Marker)
    ensures (forall m :: m in [a, b] ==> Has(content, m)) <==> Has(content, a) && Has(content, b)
  {
    assert forall m :: m in [a, b] <==> m == a || m == b;
  }

  lemma RuleOf2(content: string, kind: ContractType, a: Marker, b: Marker)
    ensures Applies(content, Rule(kind, [[a, b]])) <==> Has(content, a) && Has(content, b)
  {
    AllOf2(content, a, b);
    if Applies(content, Rule(kind, [[a, b]])) {
      var x :| x in [[a, b]] && forall m :: m in x ==> Has(content, m);
      assert x == [a, b];
    }
    if Has(content, a) && Has(content, b) {
      assert [a, b] in [[a, b]];
    }
  }

  lemma CrowdfundApplies(content: string)
    ensures Applies(content, CrowdfundRule)
      <==> Contains(AsciiLower(content), "crowdfund") || (Contains(AsciiLower(content), "fund") && Contains(content, "goal"))
  {
    var one := [Marker("crowdfund", true)];
    var two := [Marker("fund", true), Marker("goal", false)];
    AllOf2(content, Marker("fund", true), Marker("goal", false));
    assert (forall m :: m in one ==> Has(content, m)) <==> Has(content, Marker("crowdfund", true));
    assert CrowdfundRule.alternatives == [one, two];
    if Applies(content, CrowdfundRule) {
      var a :| a in CrowdfundRule.alternatives && forall m :: m in a ==> Has(content, m);
      assert a == one || a == two;
    }
    if Has(content, Marker("crowdfund", true)) {
      assert one in CrowdfundRule.alternatives;
    }
    if Has(content, Marker("fund", true)) && Has(content, Marker("goal", false)) {
      assert two in CrowdfundRule.alternatives;
    }
  }

  /** The `if`/`elif` chain is the table read from the top: each type is chosen exactly
      when its own test holds and no earlier one does. */
  lemma ChainIsTable(content: string)
    ensures ContractTypeOf(content) == FirstMatch(content, Rules)
  {
    RuleOf2(content, Auction, Marker("def bid", false), Marker("@payable", false));
    RuleOf2(content, Token, Marker("def transfer", false), Marker("balance", false));
    RuleOf2(content, Voting, Marker("vote", false), Marker("proposal", false));
    CrowdfundApplies(content);
    var r1 := [TokenRule, VotingRule, CrowdfundRule];
    var r2 := [VotingRule, CrowdfundRule];
    var r3 := [CrowdfundRule];
    assert Rules[1..] == r1 && r1[1..] == r2 && r2[1..] == r3 && r3[1..] == [];
    assert FirstMatch(content, r3) == if Applies(content, CrowdfundRule) then Crowdfund else Generic;
    assert FirstMatch(content, r2) == if Applies(content, VotingRule) then Voting else FirstMatch(content, r3);
    assert FirstMatch(content, r1) == if Applies(content, TokenRule) then Token else FirstMatch(content, r2);
  }

  /** What `analyze_contract` returns for a readable file; the size comes from
      `os.path.getsize`. */
  datatype Analysis = Analysis(path: string, size: nat, features: Features, contractType: ContractType)

  /** `analyze_contract`: a missing file is reported; a file that cannot be read is
      reported with the reason; otherwise the features and the type of its text.
      `content` is the outcome of reading the file. */
  function AnalyzeContract(path: string, found: bool, content: Result<string, string>, size: nat): (r: Result<Analysis, string>)
    ensures !found ==> r == Err("File not found: " + path)
    ensures found && content.Err? ==> r == Err("Analysis failed: " + content.error)
    ensures r.Ok? <==> found && content.Ok?
    ensures r.Ok? ==>
      && r.value.path == path && r.value.size == size
      && r.value.features == FeaturesOf(content.value)
      && r.value.contractType == FirstMatch(content.value, Rules)
  {
    if !found then Err("File not found: " + path)
    else match content
      case Err(e) => Err("Analysis failed: " + e)
      case Ok(text) =>
        ChainIsTable(text);
        Ok(Analysis(path, size, FeaturesOf(text), ContractTypeOf(text)))
  }
}
