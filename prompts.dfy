/** ai/prompts.py: the user prompt of the recommendation request, built
    line by line and joined with newlines. */
module Prompts {
  import opened Text
  import opened Collections
  import Json

  /** A series dictionary as `get_series_data` returns it: text columns,
      NULL ones dropped. */
  type Dict = map<String, String>

  /** The series argument: a single dictionary or a list of them. */
  datatype SeriesArg = One(series: Dict) | Many(all: seq<Dict>)

  /** An attribute category: the heading shown and the key looked up. */
  datatype Category = Category(name: String, key: String)

  /** The seven categories, in the order they are written. */
  const Categories: seq<Category> := [
    Category("Narrative Structure & Pacing", "narrative"),
    Category("Character Archetypes & Dynamics", "characters"),
    Category("World Building & Systems", "world"),
    Category("Visual Identity", "visual"),
    Category("Emotional Resonance", "emotional"),
    Category("Niche Tropes & Specific Content", "tropes"),
    Category("Meta-Data & Context", "metadata")
  ]

  const DefaultRequest: String :=
    "Based on the base series and attribute preferences above, "
    + "recommend 5-10 manga that match the user's desired attributes. "
    + "Prioritize recommendations that align with the 'keep' attributes "
    + "and specifically address any 'change' requests."

  /** `d.get(key, default)`. */
  function Get(d: Dict, key: String, default: String): String {
    if key in d then d[key] else default
  }

  /** `d.get(key)` is truthy. */
  predicate Has(d: Dict, key: String) { key in d && d[key] != [] }

  /** A `**Caption**: value` line, present only for a truthy field. */
  function FieldLine(d: Dict, key: String, caption: String): (r: seq<String>)
    ensures |r| <= 1
    ensures r != [] <==> Has(d, key)
  {
    if Has(d, key) then ["**" + caption + "**: " + d[key]] else []
  }

  /** The author line: `author`, falling back to `authors`. */
  function AuthorLine(d: Dict): (r: seq<String>)
    ensures r != [] <==> Has(d, "author") || Has(d, "authors")
    ensures |r| <= 1
  {
    if Has(d, "author") then ["**Author**: " + d["author"]]
    else if Has(d, "authors") then ["**Author**: " + d["authors"]]
    else []
  }

  /** `_format_series_block`: the heading, then a line for each truthy field. */
  function SeriesBlock(s: Dict, name: String): (r: seq<String>)
    ensures 1 <= |r| <= 7
    ensures r[0] == "### " + name + ": " + Get(s, "title", "Unknown")
  {
    ["### " + name + ": " + Get(s, "title", "Unknown")] + AuthorLine(s) + FieldLine(s, "synopsis", "Synopsis")
    + FieldLine(s, "genres", "Genres") + FieldLine(s, "tags", "Tags") + FieldLine(s, "status", "Status")
    + FieldLine(s, "demographics", "Demographics")
  }

  /** A series without a title is headed "Unknown"; an author-less one
      shows its `authors`; one with no truthy field is its heading alone. */
  lemma SeriesBlockFacts(s: Dict, name: String)
    ensures SeriesBlock(s, name)[0] == "### " + name + ": " + (if "title" in s then s["title"] else "Unknown")
    ensures !Has(s, "author") && Has(s, "authors") ==> SeriesBlock(s, name)[1] == "**Author**: " + s["authors"]
    ensures (forall k :: k in s ==> s[k] == []) ==> SeriesBlock(s, name) == ["### " + name + ": " + Get(s, "title", "Unknown")]
  {
  }

  /** The list the source works on: a single dictionary is a list of one. */
  function AllSeries(arg: SeriesArg): (r: seq<Dict>)
    ensures arg.One? ==> r == [arg.series]
    ensures arg.Many? ==> r == arg.all
  {
    match arg
    case One(s) => [s]
    case Many(all) => all
  }

  function CountLine(n: nat): String {
    "The user has selected " + Json.NatText(n) + " series as their base:"
  }

  /** `f"Series {i}"`. */
  function SeriesLabel(i: nat): String {
    "Series " + Json.NatText(i)
  }

  /** The blocks of several series, each after an empty line, labelled
      from 1. */
  function NumberedBlocks(all: seq<Dict>): (r: seq<String>)
    ensures |r| >= 2 * |all|
    decreases |all|
  {
    if all == [] then []
    else NumberedBlocks(all[..|all| - 1]) + ([""] + SeriesBlock(all[|all| - 1], SeriesLabel(|all|)))
  }

  /** The lines under "## Base Series". */
  function BaseLines(all: seq<Dict>): seq<String> {
    if |all| == 1 then SeriesBlock(all[0], "Base Series") else [CountLine(|all|)] + NumberedBlocks(all)
  }

  /** The dictionary of one category, empty when missing. */
  function Attribute(attrs: map<String, Dict>, c: Category): Dict {
    if c.key in attrs then attrs[c.key] else map[]
  }

  /** The lines of one category: its heading, the instruction ("keep" by
      default), and the details only when they are non-empty. */
  function CategoryLines(attrs: map<String, Dict>, c: Category): (r: seq<String>)
    ensures |r| == 2 || |r| == 3
    ensures r[0] == "\n### " + c.name
    ensures r[1] == "**Instruction**: " + Get(Attribute(attrs, c), "instruction", "keep")
    ensures |r| == 3 <==> Has(Attribute(attrs, c), "details")
  {
    var d := Attribute(attrs, c);
    ["\n### " + c.name, "**Instruction**: " + Get(d, "instruction", "keep")]
    + (if Has(d, "details") then ["**Details**: " + d["details"]] else [])
  }

  function AttributeLines(attrs: map<String, Dict>, cats: seq<Category>): seq<String>
    decreases |cats|
  {
    if cats == [] then [] else AttributeLines(attrs, cats[..|cats| - 1]) + CategoryLines(attrs, cats[|cats| - 1])
  }

  /** The request: the stripped custom request when it is not blank, the
      default text otherwise. */
  function RequestText(customRequest: String): (r: String)
    ensures Strip(customRequest) != [] ==> r == Strip(customRequest)
    ensures Strip(customRequest) == [] ==> r == DefaultRequest
  {
    if Strip(customRequest) != [] then Strip(customRequest) else DefaultRequest
  }

  /** Every line of the prompt, in order. */
  function PromptParts(arg: SeriesArg, attrs: map<String, Dict>, customRequest: String): seq<String> {
    ["## Base Series"] + BaseLines(AllSeries(arg)) + ["\n## Attribute Preferences"]
    + AttributeLines(attrs, Categories) + ["\n## Request"] + [RequestText(customRequest)]
  }

  /** `build_recipe_prompt`: the parts appended line by line, then joined
      with newlines. */
  method BuildRecipePrompt(arg: SeriesArg, attrs: map<String, Dict>, customRequest: String) returns (prompt: String)
    ensures prompt == Join("\n", PromptParts(arg, attrs, customRequest))
  {
    var all := AllSeries(arg);
    var parts := AppendBase(["## Base Series"], all);
    parts := parts + ["\n## Attribute Preferences"];
    parts := AppendCategories(parts, attrs, Categories);
    parts := parts + ["\n## Request"];
    ghost var before := parts;
    if Strip(customRequest) != [] {
      parts := parts + [Strip(customRequest)];
    } else {
      parts := parts + [DefaultRequest];
    }
    assert parts == before + [RequestText(customRequest)];
    prompt := Join("\n", parts);
  }

  /** The "## Base Series" lines: one block, or the count and the
      numbered blocks. */
  method AppendBase(parts: seq<String>, all: seq<Dict>) returns (r: seq<String>)
    ensures r == parts + BaseLines(all)
  {
    if |all| == 1 {
      r := parts + SeriesBlock(all[0], "Base Series");
    } else {
      r := AppendNumbered(parts + [CountLine(|all|)], all);
    }
  }

  /** The loop over `enumerate(all_series, 1)`. */
  method AppendNumbered(parts: seq<String>, all: seq<Dict>) returns (r: seq<String>)
    ensures r == parts + NumberedBlocks(all)
  {
    r := parts;
    for i := 0 to |all|
      invariant r == parts + NumberedBlocks(all[..i])
    {
      NumberedSnoc(parts, all, i);
      r := r + ([""] + SeriesBlock(all[i], SeriesLabel(i + 1)));
    }
    assert all[..|all|] == all;
  }

  lemma NumberedSnoc(parts: seq<String>, all: seq<Dict>, i: nat)
    requires i < |all|
    ensures parts + NumberedBlocks(all[..i + 1]) == parts + NumberedBlocks(all[..i]) + ([""] + SeriesBlock(all[i], SeriesLabel(i + 1)))
  {
    var p := all[..i + 1];
    var block := [""] + SeriesBlock(all[i], SeriesLabel(i + 1));
    assert p[..|p| - 1] == all[..i] && p[|p| - 1] == all[i];
    assert NumberedBlocks(p) == NumberedBlocks(all[..i]) + block;
    assert parts + (NumberedBlocks(all[..i]) + block) == parts + NumberedBlocks(all[..i]) + block;
  }

  lemma AttributeSnoc(attrs: map<String, Dict>, cats: seq<Category>, i: nat)
    requires i < |cats|
    ensures AttributeLines(attrs, cats[..i + 1]) == AttributeLines(attrs, cats[..i]) + CategoryLines(attrs, cats[i])
  {
    var p := cats[..i + 1];
    assert p[..|p| - 1] == cats[..i] && p[|p| - 1] == cats[i];
  }

  /** The loop over the categories. */
  method AppendCategories(parts: seq<String>, attrs: map<String, Dict>, cats: seq<Category>) returns (r: seq<String>)
    ensures r == parts + AttributeLines(attrs, cats)
  {
    r := parts;
    for i := 0 to |cats|
      invariant r == parts + AttributeLines(attrs, cats[..i])
    {
      AttributeSnoc(attrs, cats, i);
      r := r + CategoryLines(attrs, cats[i]);
    }
    assert cats[..|cats|] == cats;
  }

  // ---------------------------------------------------------------------------
  // What the prompt holds
  // ---------------------------------------------------------------------------

  /** A category heading line. */
  predicate IsHeading(line: String) { |line| >= 5 && line[..5] == "\n### " }

  lemma {:induction false} FilterConcat<T>(a: seq<T>, b: seq<T>, f: T -> bool)
    ensures Filter(a + b, f) == Filter(a, f) + Filter(b, f)
    decreases |b|
  {
    if b == [] {
      assert a + b == a;
    } else {
      var init := b[..|b| - 1];
      assert a + b == (a + init) + [b[|b| - 1]];
      assert (a + b)[..|a + b| - 1] == a + init;
      FilterConcat(a, init, f);
    }
  }

  /** The heading of each category, in order. */
  function Headings(cats: seq<Category>): seq<String>
    decreases |cats|
  {
    if cats == [] then [] else Headings(cats[..|cats| - 1]) + ["\n### " + cats[|cats| - 1].name]
  }

  /** Of a category's lines only the first is a heading. */
  lemma CategoryHeading(attrs: map<String, Dict>, c: Category)
    ensures Filter(CategoryLines(attrs, c), IsHeading) == ["\n### " + c.name]
  {
    var r := CategoryLines(attrs, c);
    assert ("\n### " + c.name)[..5] == "\n### ";
    assert !IsHeading(r[1]) by { assert r[1][0] == '*'; }
    if |r| == 3 {
      assert !IsHeading(r[2]) by { assert r[2][0] == '*'; }
      assert r == [r[0], r[1]] + [r[2]];
      assert [r[0], r[1]] == [r[0]] + [r[1]];
      assert Filter([r[0]], IsHeading) == [r[0]];
    } else {
      assert r == [r[0]] + [r[1]];
      assert Filter([r[0]], IsHeading) == [r[0]];
    }
  }

  /** Every category is written, whatever the attributes hold, and the
      headings come in the categories' order. */
  lemma {:induction false} AllCategoriesInOrder(attrs: map<String, Dict>, cats: seq<Category>)
    ensures Filter(AttributeLines(attrs, cats), IsHeading) == Headings(cats)
    decreases |cats|
  {
    if cats != [] {
      var init := cats[..|cats| - 1];
      AllCategoriesInOrder(attrs, init);
      FilterConcat(AttributeLines(attrs, init), CategoryLines(attrs, cats[|cats| - 1]), IsHeading);
      CategoryHeading(attrs, cats[|cats| - 1]);
    }
  }

  /** The seven headings of the prompt. */
  lemma SevenHeadings(attrs: map<String, Dict>)
    ensures |Filter(AttributeLines(attrs, Categories), IsHeading)| == 7
  {
    AllCategoriesInOrder(attrs, Categories);
    HeadingsLength(Categories);
  }

  lemma {:induction false} HeadingsLength(cats: seq<Category>)
    ensures |Headings(cats)| == |cats|
    decreases |cats|
  {
    if cats != [] {
      HeadingsLength(cats[..|cats| - 1]);
    }
  }

  /** `"\n".join(parts)` ends with the last part. */
  lemma {:induction false} JoinEndsWithLast(parts: seq<String>)
    requires parts != []
    ensures EndsWith(Join("\n", parts), parts[|parts| - 1])
    decreases |parts|
  {
    if |parts| > 1 {
      JoinEndsWithLast(parts[1..]);
      var rest := Join("\n", parts[1..]);
      var last := parts[|parts| - 1];
      assert parts[1..][|parts[1..]| - 1] == last;
      var whole := parts[0] + "\n" + rest;
      assert whole[|whole| - |last|..] == rest[|rest| - |last|..];
    }
  }

  /** `"\n".join(parts)` starts with the first part. */
  lemma JoinStartsWithFirst(parts: seq<String>)
    requires parts != []
    ensures StartsWith(Join("\n", parts), parts[0])
  {
    if |parts| > 1 {
      var whole := parts[0] + "\n" + Join("\n", parts[1..]);
      assert whole[..|parts[0]|] == parts[0];
    }
  }

  /** The prompt opens with the "## Base Series" heading and closes with
      the request: the stripped custom request when it is not blank, the
      default request otherwise. */
  lemma PromptFrame(arg: SeriesArg, attrs: map<String, Dict>, customRequest: String)
    ensures StartsWith(Join("\n", PromptParts(arg, attrs, customRequest)), "## Base Series")
    ensures EndsWith(Join("\n", PromptParts(arg, attrs, customRequest)), RequestText(customRequest))
  {
    var parts := PromptParts(arg, attrs, customRequest);
    JoinStartsWithFirst(parts);
    JoinEndsWithLast(parts);
  }

  /** One base series: its block opens the section, titled "Base Series". */
  lemma SingleBaseLines(all: seq<Dict>)
    requires |all| == 1
    ensures BaseLines(all)[0] == "### Base Series: " + Get(all[0], "title", "Unknown")
  {
  }

  /** Several base series: a count line, a blank line, then "Series 1"'s
      block first. */
  lemma ManyBaseLines(all: seq<Dict>)
    requires |all| > 1
    ensures |BaseLines(all)| >= 3 && BaseLines(all)[0] == CountLine(|all|)
    ensures BaseLines(all)[1] == "" && BaseLines(all)[2] == "### " + SeriesLabel(1) + ": " + Get(all[0], "title", "Unknown")
  {
    var nb := NumberedBlocks(all);
    NumberedStart(all);
    assert BaseLines(all) == [CountLine(|all|)] + nb;
  }

  /** The numbered blocks open with an empty line and "Series 1"'s heading. */
  lemma {:induction false} NumberedStart(all: seq<Dict>)
    requires all != []
    ensures NumberedBlocks(all)[0] == "" && NumberedBlocks(all)[1] == "### " + SeriesLabel(1) + ": " + Get(all[0], "title", "Unknown")
    decreases |all|
  {
    if |all| > 1 {
      var init := all[..|all| - 1];
      NumberedStart(init);
      assert init[0] == all[0];
    }
  }
}
