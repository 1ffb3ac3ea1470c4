/**
  ComposeRules and ComposeRulesFromAllPackages
  (parsers/manifest_parser.go): each rule of a package's rule list is built
  by Rule.ComposeWskRule, and its action name is trimmed and qualified by
  the package unless it already names one. Composing rules never fails.
 */
module Rules {
  import opened Whisk
  import opened Strs
  import opened Paths
  import opened Manifest
  import opened Externals

  /** One rule: as ComposeWskRule builds it, with the trimmed action qualified by the package. */
  function RuleOf(helpers: YamlHelpers, rule: RuleSpec, packageName: string): Rule {
    var w := helpers.composeWskRule(rule);
    w.(action := Qualify(packageName, TrimSpace(w.action)))
  }

  /**
    The rule keeps the name and trigger ComposeWskRule gives it; its target
    is the trimmed action name when that already holds a '/', and otherwise
    that name under the package.
   */
  lemma RuleShape(helpers: YamlHelpers, rule: RuleSpec, packageName: string)
    ensures var w := helpers.composeWskRule(rule);
      var act := TrimSpace(w.action);
      var r := RuleOf(helpers, rule, packageName);
      r.name == w.name && r.trigger == w.trigger &&
      ('/' in act ==> r.action == act) &&
      ('/' !in act && act != "" && packageName != "" && packageName[|packageName| - 1] != '/' ==>
         r.action == packageName + "/" + act)
  {
  }

  /** Qualifying an already qualified target changes nothing, so composing a composed rule's target again is harmless. */
  lemma QualifyIdempotent(packageName: string, act: string)
    requires act != "" && packageName != "" && packageName[|packageName| - 1] != '/'
    ensures Qualify(packageName, Qualify(packageName, act)) == Qualify(packageName, act)
  {
    if '/' !in act {
      var q := Qualify(packageName, act);
      assert q[|packageName|] == '/';
    }
  }

  /** The rules of one rule list, in order. */
  function RulesOf(helpers: YamlHelpers, rules: seq<RuleSpec>, packageName: string): (r: seq<Rule>)
    ensures |r| == |rules|
  {
    if rules == [] then [] else [RuleOf(helpers, rules[0], packageName)] + RulesOf(helpers, rules[1..], packageName)
  }

  /** Rule i is the composition of declaration i. */
  lemma {:induction false} RulesOfAt(helpers: YamlHelpers, rules: seq<RuleSpec>, packageName: string, i: nat)
    requires i < |rules|
    ensures RulesOf(helpers, rules, packageName)[i] == RuleOf(helpers, rules[i], packageName)
  {
    var all := RulesOf(helpers, rules, packageName);
    var tail := RulesOf(helpers, rules[1..], packageName);
    assert all == [RuleOf(helpers, rules[0], packageName)] + tail;
    if i > 0 {
      RulesOfAt(helpers, rules[1..], packageName, i - 1);
      assert rules[1..][i - 1] == rules[i];
      assert all[i] == tail[i - 1];
    } else {
      assert all[0] == RuleOf(helpers, rules[0], packageName);
    }
  }

  lemma RulesStep(helpers: YamlHelpers, rules: seq<RuleSpec>, i: nat, packageName: string, acc: seq<Rule>)
    requires i < |rules|
    ensures acc + RulesOf(helpers, rules[i..], packageName)
         == (acc + [RuleOf(helpers, rules[i], packageName)]) + RulesOf(helpers, rules[i + 1..], packageName)
  {
    var rest := rules[i..];
    assert rest[0] == rules[i] && rest[1..] == rules[i + 1..];
  }

  /** ComposeRules: the package's rule list in order; the error it returns is always nil. */
  method ComposeRules(helpers: YamlHelpers, pkg: PackageSpec, packageName: string) returns (r1: seq<Rule>)
    ensures r1 == RulesOf(helpers, helpers.ruleList(pkg), packageName)
  {
    var rules := helpers.ruleList(pkg);
    r1 := [];
    var i := 0;
    assert rules[i..] == rules;
    while i < |rules|
      invariant 0 <= i <= |rules|
      invariant RulesOf(helpers, rules, packageName) == r1 + RulesOf(helpers, rules[i..], packageName)
    {
      RulesStep(helpers, rules, i, packageName, r1);
      var wskrule := helpers.composeWskRule(rules[i]);
      var act := TrimSpace(wskrule.action);
      if '/' !in act && !HasPrefix(act, packageName + "/") {
        act := PathJoin(packageName, act);
      }
      wskrule := wskrule.(action := act);
      r1 := r1 + [wskrule];
      i := i + 1;
    }
    assert rules[i..] == [];
    assert r1 + [] == r1;
  }

  /** The rules of all selected packages, concatenated in package order, each qualified by its own package's name. */
  function AllRulesOf(helpers: YamlHelpers, packages: seq<(string, PackageSpec)>): seq<Rule> {
    if packages == [] then []
    else RulesOf(helpers, helpers.ruleList(packages[0].1), packages[0].0) + AllRulesOf(helpers, packages[1..])
  }

  lemma AllRulesStep(helpers: YamlHelpers, packages: seq<(string, PackageSpec)>, i: nat, acc: seq<Rule>, r: seq<Rule>)
    requires i < |packages|
    requires AllRulesOf(helpers, packages) == acc + AllRulesOf(helpers, packages[i..])
    requires r == RulesOf(helpers, helpers.ruleList(packages[i].1), packages[i].0)
    ensures AllRulesOf(helpers, packages) == (acc + r) + AllRulesOf(helpers, packages[i + 1..])
  {
    var rest := packages[i..];
    assert rest[0] == packages[i] && rest[1..] == packages[i + 1..];
    assert AllRulesOf(helpers, rest) == r + AllRulesOf(helpers, packages[i + 1..]);
  }

  /** The number of rules the packages' rule lists hold. */
  function RuleCount(helpers: YamlHelpers, packages: seq<(string, PackageSpec)>): nat {
    if packages == [] then 0 else |helpers.ruleList(packages[0].1)| + RuleCount(helpers, packages[1..])
  }

  /** Every listed rule of every selected package is composed, none dropped and none added. */
  lemma {:induction false} AllRulesCount(helpers: YamlHelpers, packages: seq<(string, PackageSpec)>)
    ensures |AllRulesOf(helpers, packages)| == RuleCount(helpers, packages)
  {
    if packages != [] {
      AllRulesCount(helpers, packages[1..]);
    }
  }

  /** ComposeRulesFromAllPackages: the selected packages in turn, each qualifying by its own key; never an error. */
  method ComposeRulesFromAllPackages(helpers: YamlHelpers, manifest: Yaml) returns (rules: seq<Rule>)
    ensures rules == AllRulesOf(helpers, ManifestPackages(manifest))
  {
    if manifest.package.packagename != "" {
      rules := ComposeRules(helpers, manifest.package, manifest.package.packagename);
      assert rules + [] == rules;
      return;
    }
    var manifestPackages: seq<(string, PackageSpec)> := [];
    if Len(manifest.packages) != 0 {
      manifestPackages := manifest.packages.value;
    } else if manifest.project.packages.Some? {
      manifestPackages := manifest.project.packages.value;
    }
    rules := [];
    var i := 0;
    assert manifestPackages[i..] == manifestPackages;
    while i < |manifestPackages|
      invariant 0 <= i <= |manifestPackages|
      invariant AllRulesOf(helpers, manifestPackages) == rules + AllRulesOf(helpers, manifestPackages[i..])
    {
      var r := ComposeRules(helpers, manifestPackages[i].1, manifestPackages[i].0);
      AllRulesStep(helpers, manifestPackages, i, rules, r);
      rules := rules + r;
      i := i + 1;
    }
    assert manifestPackages[i..] == [];
    assert rules + [] == rules;
  }
}
