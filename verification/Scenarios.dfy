/** The scenario generator: bounded payload variation, then an in-place Fisher-Yates shuffle. */
module Scenarios {
  import opened Text
  import opened Identifiers
  import opened Model
  import opened Xorshift
  import Sorting

  // ---------- What the generator computes ----------

  function Vary(t: Template, w: Word): Scenario
    requires ValidTemplate(t)
  {
    Scenario(t.id, t.base + (w % (t.variation * 2 + 1) - t.variation))
  }

  /** The k-th template is varied with the k-th output of the generator. */
  function Varied(templates: seq<Template>, draw: nat -> Word): (r: seq<Scenario>)
    requires forall t :: t in templates ==> ValidTemplate(t)
    ensures |r| == |templates|
  {
    seq(|templates|, k requires 0 <= k < |templates| => Vary(templates[k], draw(k)))
  }

  function Swapped<T>(s: seq<T>, i: nat, j: nat): (r: seq<T>)
    requires i < |s| && j < |s|
    ensures |r| == |s|
  {
    s[i := s[j]][j := s[i]]
  }

  /** Fisher-Yates from position index down to 1; the first swap uses output number k. */
  function Shuffled<T>(s: seq<T>, draw: nat -> Word, k: nat, index: int): (r: seq<T>)
    requires index < |s|
    ensures |r| == |s|
    decreases index
  {
    if index <= 0 then s
    else Shuffled(Swapped(s, index, draw(k) % (index + 1)), draw, k + 1, index - 1)
  }

  function GeneratedScenarios(templates: seq<Template>, draw: nat -> Word): (r: seq<Scenario>)
    requires forall t :: t in templates ==> ValidTemplate(t)
    ensures |r| == |templates|
  {
    Shuffled(Varied(templates, draw), draw, |templates|, |templates| - 1)
  }

  /** The suite handed to the final parser: its version is fixed, its generator version is the configuration's. */
  function UncheckedSuite(c: Config): Suite
    requires forall t :: t in c.templates ==> ValidTemplate(t)
    requires ValidSeed(c.seed)
  {
    Suite(Current, c.version, c.seed, GeneratedScenarios(c.templates, Stream(c.seed)))
  }

  lemma ParsedConfigIsValid(c: Config, expected: Option<Version>, p: Config)
    requires ParseConfig(c, expected) == Some(p)
    ensures 1 <= |p.templates| <= MAX_SCENARIOS && Unique(TemplateIds(p.templates))
    ensures forall t :: t in p.templates ==> ValidTemplate(t)
    ensures ValidSeed(p.seed) && p.version == c.version
  {
    Sorting.SortPermutes(TemplateLess, c.templates);
    Sorting.SameMembers(c.templates, p.templates);
  }

  // ---------- The source's loops ----------

  method GenerateScenarioSuite(input: Config) returns (r: Option<Suite>)
    ensures match ParseConfig(input, None)
            case None => r == None
            case Some(c) =>
              && (forall t :: t in c.templates ==> ValidTemplate(t))
              && ValidSeed(c.seed)
              && r == ParseSuite(UncheckedSuite(c))
  {
    var parsed := ParseConfig(input, None);
    if parsed.None? {
      return None;
    }
    ParsedConfigIsValid(input, None, parsed.value);
    var suite := GenerateUnchecked(parsed.value);
    r := ParseSuite(suite);
  }

  /** The suite before it is parsed again, always under the current suite version. */
  method GenerateUnchecked(config: Config) returns (suite: Suite)
    requires (forall t :: t in config.templates ==> ValidTemplate(t)) && ValidSeed(config.seed)
    ensures suite == UncheckedSuite(config)
  {
    var generator := new Generator(config.seed);
    ghost var draw := Stream(config.seed);
    var scenarios := Vary1(config.templates, generator, draw);
    Shuffle(scenarios, generator, draw, |config.templates|);
    suite := Suite(Current, config.version, config.seed, scenarios[..]);
  }

  /** The map over the templates, one output each. */
  method Vary1(templates: seq<Template>, generator: Generator, ghost draw: nat -> Word)
      returns (scenarios: array<Scenario>)
    requires forall t :: t in templates ==> ValidTemplate(t)
    requires generator.Follows(draw, 0)
    modifies generator
    ensures fresh(scenarios) && scenarios[..] == Varied(templates, draw)
    ensures generator.Follows(draw, |templates|)
  {
    scenarios := new Scenario[|templates|](_ => Scenario([], 0));
    for k := 0 to |templates|
      invariant generator.Follows(draw, k)
      invariant scenarios[..k] == Varied(templates, draw)[..k]
    {
      var variationSpan := templates[k].variation * 2 + 1;
      var output := generator.Draw(draw, k);
      var payloadOffset := output % variationSpan - templates[k].variation;
      scenarios[k] := Scenario(templates[k].id, templates[k].base + payloadOffset);
    }
  }

  method Exchange<T>(a: array<T>, i: nat, j: nat)
    requires i < a.Length && j < a.Length
    modifies a
    ensures a[..] == Swapped(old(a[..]), i, j)
  {
    a[i], a[j] := a[j], a[i];
  }

  /** One turn of the shuffle: the next output picks the partner of the index. */
  method ExchangeDrawn(scenarios: array<Scenario>, generator: Generator, ghost draw: nat -> Word, ghost k: nat, index: nat)
    requires index < scenarios.Length && generator.Follows(draw, k)
    modifies scenarios, generator
    ensures generator.Follows(draw, k + 1)
    ensures scenarios[..] == Swapped(old(scenarios[..]), index, draw(k) % (index + 1))
  {
    var output := generator.Draw(draw, k);
    Exchange(scenarios, index, output % (index + 1));
  }

  /** The shuffle loop, swapping elements of the array in place. */
  method Shuffle(scenarios: array<Scenario>, generator: Generator, ghost draw: nat -> Word, ghost first: nat)
    requires generator.Follows(draw, first)
    modifies scenarios, generator
    ensures scenarios[..] == Shuffled(old(scenarios[..]), draw, first, scenarios.Length - 1)
  {
    ghost var target := Shuffled(scenarios[..], draw, first, scenarios.Length - 1);
    ghost var k := first;
    var index := scenarios.Length - 1;
    while index > 0
      invariant index < scenarios.Length && generator.Follows(draw, k)
      invariant Shuffled(scenarios[..], draw, k, index) == target
    {
      ExchangeDrawn(scenarios, generator, draw, k, index);
      index := index - 1;
      k := k + 1;
    }
  }

  // ---------- What the generator promises ----------

  lemma SwappedPermutes<T>(s: seq<T>, i: nat, j: nat)
    requires i < |s| && j < |s|
    ensures multiset(Swapped(s, i, j)) == multiset(s)
  {
  }

  lemma {:induction false} ShufflePermutes<T>(s: seq<T>, draw: nat -> Word, k: nat, index: int)
    requires index < |s|
    ensures multiset(Shuffled(s, draw, k, index)) == multiset(s)
    decreases index
  {
    if index > 0 {
      SwappedPermutes(s, index, draw(k) % (index + 1));
      ShufflePermutes(Swapped(s, index, draw(k) % (index + 1)), draw, k + 1, index - 1);
    }
  }

  lemma UniqueIsMultiset(a: seq<Scenario>, b: seq<Scenario>)
    requires multiset(a) == multiset(b) && Unique(ScenarioIds(a))
    ensures Unique(ScenarioIds(b))
  {
    assert |a| == |multiset(a)| == |multiset(b)| == |b|;
    forall i, j | 0 <= i < j < |b| ensures b[i].id != b[j].id {
      if b[i] == b[j] {
        Sorting.TwoOccurrences(b, i, j);
        var p, q := Sorting.OccurrencesOf(a, b[i]);
        UniqueAt(a, p, q);
      } else {
        Sorting.MultisetMember(a, b, b[i]);
        Sorting.MultisetMember(a, b, b[j]);
        var p :| 0 <= p < |a| && a[p] == b[i];
        var q :| 0 <= q < |a| && a[q] == b[j];
        UniqueAt(a, p, q);
      }
    }
  }

  lemma UniqueAt(a: seq<Scenario>, p: nat, q: nat)
    requires Unique(ScenarioIds(a)) && p < |a| && q < |a| && p != q
    ensures a[p].id != a[q].id
  {
    assert ScenarioIds(a)[p] == a[p].id && ScenarioIds(a)[q] == a[q].id;
  }

  lemma VariedIsValid(templates: seq<Template>, draw: nat -> Word)
    requires forall t :: t in templates ==> ValidTemplate(t)
    requires Unique(TemplateIds(templates))
    ensures ScenarioIds(Varied(templates, draw)) == TemplateIds(templates)
    ensures Unique(ScenarioIds(Varied(templates, draw)))
    ensures forall x :: x in Varied(templates, draw) ==> ValidScenario(x)
  {
    var v := Varied(templates, draw);
    forall k | 0 <= k < |v| ensures ValidScenario(v[k]) {
      VariationInRange(templates[k], draw(k));
    }
    forall k | 0 <= k < |v| ensures v[k].id == templates[k].id {
      assert v[k] == Vary(templates[k], draw(k));
    }
    assert ScenarioIds(v) == TemplateIds(templates);
  }

  lemma VariationInRange(t: Template, w: Word)
    requires ValidTemplate(t)
    ensures t.base - t.variation <= Vary(t, w).payload <= t.base + t.variation
    ensures ValidScenario(Vary(t, w))
  {
  }

  /** The payload lies as far above the lower end of the variation as the word modulo the span. */
  predicate DrawnFor(x: Scenario, t: Template, w: Word)
    requires ValidTemplate(t)
  {
    var low, span := t.base - t.variation, 2 * t.variation + 1;
    x.id == t.id && low <= x.payload < low + span && w == (w / span) * span + (x.payload - low)
  }

  lemma VaryIsDrawn(t: Template, w: Word)
    requires ValidTemplate(t)
    ensures DrawnFor(Vary(t, w), t, w)
  {
  }

  ghost predicate Covers(scenarios: seq<Scenario>, t: Template, w: Word)
    requires ValidTemplate(t)
  {
    exists x :: x in scenarios && DrawnFor(x, t, w)
  }

  /** Each template's scenario appears exactly once, with the payload its own draw picks within its variation. */
  lemma GeneratedIsVariedPermutation(templates: seq<Template>, draw: nat -> Word)
    requires forall t :: t in templates ==> ValidTemplate(t)
    requires Unique(TemplateIds(templates))
    ensures var g := GeneratedScenarios(templates, draw);
            && Unique(ScenarioIds(g))
            && (forall x :: x in g ==> ValidScenario(x))
            && (forall k :: 0 <= k < |templates| ==> Covers(g, templates[k], draw(k)))
  {
    var n := |templates|;
    var v := Varied(templates, draw);
    var g := GeneratedScenarios(templates, draw);
    ShufflePermutes(v, draw, n, n - 1);
    VariedIsValid(templates, draw);
    UniqueIsMultiset(v, g);
    Sorting.SameMembers(v, g);
    forall k | 0 <= k < n ensures Covers(g, templates[k], draw(k)) {
      VaryIsDrawn(templates[k], draw(k));
      assert v[k] == Vary(templates[k], draw(k));
      assert v[k] in v && v[k] in g;
    }
  }

  // ---------- Every order can be drawn ----------

  /** The n outputs from number k on. */
  function Drawn(draw: nat -> Word, k: nat, n: nat): (words: seq<Word>)
    ensures |words| == n
  {
    seq(n, i requires 0 <= i < n => draw(k + i))
  }

  /** The shuffle by a list of words: one for each position from the last down to 1. */
  function ShuffledBy<T>(s: seq<T>, words: seq<Word>): seq<T>
    requires |words| < |s|
    decreases |words|
  {
    if words == [] then s else ShuffledBy(Swapped(s, |words|, words[0] % (|words| + 1)), words[1..])
  }

  lemma {:induction false} ShuffledByDrawn<T>(s: seq<T>, draw: nat -> Word, k: nat, index: nat)
    requires index < |s|
    ensures Shuffled(s, draw, k, index) == ShuffledBy(s, Drawn(draw, k, index))
    decreases index
  {
    if index > 0 {
      var words := Drawn(draw, k, index);
      assert words[0] == draw(k + 0) && words[1..] == Drawn(draw, k + 1, index - 1);
      ShuffledByDrawn(Swapped(s, index, draw(k) % (index + 1)), draw, k + 1, index - 1);
    }
  }

  lemma SameRest<T>(a: multiset<T>, b: multiset<T>, rest: multiset<T>)
    requires a + rest == b + rest
    ensures a == b
  {
    forall x ensures a[x] == b[x] {
      assert (a + rest)[x] == (b + rest)[x];
    }
  }

  lemma PartnerFor<T>(s: seq<T>, t: seq<T>, index: nat) returns (j: nat)
    requires |s| == |t| && index < |s| && s[index + 1..] == t[index + 1..] && multiset(s) == multiset(t)
    ensures j <= index && s[j] == t[index]
  {
    var a, b := s[..index + 1], t[..index + 1];
    assert s == a + s[index + 1..] && t == b + t[index + 1..];
    assert multiset(s) == multiset(a) + multiset(s[index + 1..]);
    assert multiset(t) == multiset(b) + multiset(t[index + 1..]);
    SameRest(multiset(a), multiset(b), multiset(t[index + 1..]));
    Sorting.MultisetMember(a, b, b[index]);
    j :| 0 <= j < |a| && a[j] == b[index];
  }

  /** One swap puts the right element at the index, and leaves what is above. */
  lemma SwapPlaces<T>(s: seq<T>, t: seq<T>, index: nat, j: nat)
    requires j <= index < |s| == |t| && s[j] == t[index] && s[index + 1..] == t[index + 1..]
    ensures Swapped(s, index, j)[index..] == t[index..]
  {
    var next := Swapped(s, index, j);
    forall i | index <= i < |s| ensures next[i] == t[i] {
      if i > index {
        assert next[i] == s[i] == s[index + 1..][i - (index + 1)] == t[index + 1..][i - (index + 1)];
      }
    }
  }

  lemma SameFromFirst<T>(s: seq<T>, t: seq<T>)
    requires 0 < |s| == |t| && s[1..] == t[1..] && multiset(s) == multiset(t)
    ensures s == t
  {
    var j := PartnerFor(s, t, 0);
    assert s == [s[0]] + s[1..] && t == [t[0]] + t[1..];
  }

  lemma SmallRemainder(j: nat, m: nat)
    requires j < m
    ensures j % m == j
  {
  }

  lemma ShuffledByFirst<T>(s: seq<T>, j: Word, rest: seq<Word>)
    requires |rest| + 1 < |s| && j <= |rest| + 1
    ensures ShuffledBy(s, [j] + rest) == ShuffledBy(Swapped(s, |rest| + 1, j), rest)
  {
    SmallRemainder(j, |rest| + 2);
    assert ([j] + rest)[1..] == rest;
  }

  /** Words that carry the shuffle from s to t, when they agree above the index. */
  lemma {:induction false} ShuffleReaches<T>(s: seq<T>, t: seq<T>, index: nat) returns (words: seq<Word>)
    requires |s| == |t| < TWO_32 && index < |s| && s[index + 1..] == t[index + 1..] && multiset(s) == multiset(t)
    ensures |words| == index && ShuffledBy(s, words) == t
    decreases index
  {
    if index == 0 {
      SameFromFirst(s, t);
      words := [];
    } else {
      var j := PartnerFor(s, t, index);
      SwappedPermutes(s, index, j);
      SwapPlaces(s, t, index, j);
      var rest := ShuffleReaches(Swapped(s, index, j), t, index - 1);
      ShuffledByFirst(s, j, rest);
      words := [j] + rest;
    }
  }

  /** Every order of the scenarios is the outcome of the shuffle for some draws. */
  lemma EveryOrderDrawn(s: seq<Scenario>, t: seq<Scenario>, k: nat) returns (draw: nat -> Word)
    requires |s| < TWO_32 && multiset(s) == multiset(t)
    ensures Shuffled(s, draw, k, |s| - 1) == t
  {
    Sorting.SameMembers(s, t);
    if s == [] {
      draw := (n: nat) => 0;
    } else {
      assert s[|s|..] == [] && t[|s|..] == [];
      var words := ShuffleReaches(s, t, |s| - 1);
      draw := (n: nat) => if k <= n < k + |words| then words[n - k] else 0;
      assert Drawn(draw, k, |words|) == words;
      ShuffledByDrawn(s, draw, k, |s| - 1);
    }
  }

  /** The generator's own final parse accepts exactly the current dialect: a valid legacy configuration always fails. */
  lemma SuiteAcceptedIffCurrent(input: Config, c: Config)
    requires ParseConfig(input, None) == Some(c)
    ensures 1 <= |c.templates| && (forall t :: t in c.templates ==> ValidTemplate(t)) && ValidSeed(c.seed)
    ensures ParseSuite(UncheckedSuite(c)) == if c.version == Current then Some(UncheckedSuite(c)) else None
  {
    ParsedConfigIsValid(input, None, c);
    GeneratedIsVariedPermutation(c.templates, Stream(c.seed));
  }

  /** A concrete legacy configuration that the configuration parser accepts and the generator then rejects. */
  lemma LegacyConfigurationFails()
    ensures var t := Template(SCENARIO + [COLON, 0x61], 0, 0);
            var c := Config(Legacy, 1, [t]);
            && ParseConfig(c, None) == Some(c)
            && (forall x :: x in c.templates ==> ValidTemplate(x))
            && ParseSuite(UncheckedSuite(c)) == None
  {
    var t := Template(SCENARIO + [COLON, 0x61], 0, 0);
    assert t.id[|SCENARIO| + 1..] == [0x61];
    assert t.id[..|SCENARIO|] == SCENARIO;
    assert ValidTemplate(t);
    var c := Config(Legacy, 1, [t]);
    assert Sorting.Sort(TemplateLess, [t]) == [t];
    SuiteAcceptedIffCurrent(c, c);
  }
}
