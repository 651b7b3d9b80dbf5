/**
 The system prompt in a half that stays the same from turn to turn and a half that does not
 (butler/agent/prompting.py, `PromptAssembler` and `PromptSections`).
 */
module PromptAssembly {
  import opened PyText

  datatype Context = Context(mode: string, overlays: seq<string>, memory: Option<string>, extra: Option<string>)

  /** The texts on disk, as `_read_text` returns them, the overlays under their names. */
  datatype Library = Library(persona: string, overlays: map<string, string>)

  datatype Prompt = Prompt(stable: string, changing: Option<string>)

  datatype Fault = UnknownOverlay(name: string)

  // ---------------------------------------------------------------------------
  // Names
  // ---------------------------------------------------------------------------

  /** `lower()` on letters without accents, and `replace("-", "_")` */
  function NormalChar(c: char): char {
    if 'A' <= c <= 'Z' then (c as int + 32) as char else if c == '-' then '_' else c
  }

  function NormalChars(s: string): (r: string)
    ensures |r| == |s|
  {
    if s == "" then "" else [NormalChar(s[0])] + NormalChars(s[1..])
  }

  function Normal(name: string): string {
    NormalChars(Strip(name))
  }

  function Unique(names: seq<string>): seq<string> {
    if names == [] then []
    else
      var before, name := Unique(names[..|names| - 1]), Normal(names[|names| - 1]);
      if name == "" || name in before then before else before + [name]
  }

  method UniqueOverlayNames(names: seq<string>) returns (unique: seq<string>)
    ensures unique == Unique(names)
  {
    unique := [];
    var seen: set<string> := {};
    for i := 0 to |names|
      invariant unique == Unique(names[..i])
      invariant forall name :: name in seen <==> name in unique
    {
      assert names[..i + 1][..i] == names[..i];
      var name := Normal(names[i]);
      if name == "" || name in seen {
        continue;
      }
      seen := seen + {name};
      unique := unique + [name];
    }
    assert names[..|names|] == names;
  }

  /** Some name of the list is this one in normal form. */
  predicate Named(names: seq<string>, name: string) {
    exists i :: 0 <= i < |names| && Normal(names[i]) == name
  }

  /** Every name is listed once, in order of first appearance. */
  lemma {:induction false} UniqueMeans(names: seq<string>)
    ensures forall i, j :: 0 <= i < j < |Unique(names)| ==> Unique(names)[i] != Unique(names)[j]
    ensures forall name :: name in Unique(names) <==> name != "" && Named(names, name)
  {
    if names != [] {
      var front, last := names[..|names| - 1], names[|names| - 1];
      UniqueMeans(front);
      forall name ensures name in Unique(names) <==> name != "" && Named(names, name) {
        NamedOnceMore(names, name);
      }
    }
  }

  lemma NamedOnceMore(names: seq<string>, name: string)
    requires names != []
    ensures Named(names, name) <==> Named(names[..|names| - 1], name) || Normal(names[|names| - 1]) == name
  {
    hide Normal;
    var front := names[..|names| - 1];
    if i :| 0 <= i < |front| && Normal(front[i]) == name {
      assert Normal(names[i]) == name;
    }
    if i :| 0 <= i < |names| && Normal(names[i]) == name {
      assert i < |front| ==> Normal(front[i]) == name;
    }
  }

  // ---------------------------------------------------------------------------
  // Sections
  // ---------------------------------------------------------------------------

  const FILESYSTEM := "filesystem"
  const TOOL_USAGE := "tool_usage"

  predicate AlwaysOn(name: string) {
    name == FILESYSTEM || name == TOOL_USAGE
  }

  function Section(title: string, body: string): string {
    "## " + title + "\n\n" + Strip(body)
  }

  /** `"\n\n".join(sections)` */
  function Paragraphs(sections: seq<string>): string {
    if sections == [] then ""
    else if |sections| == 1 then sections[0]
    else sections[0] + "\n\n" + Paragraphs(sections[1..])
  }

  function Join(sections: seq<string>): string {
    Strip(Paragraphs(sections)) + "\n"
  }

  function FirstUnknown(names: seq<string>, lib: Library): Option<string> {
    if names == [] then None
    else if FirstUnknown(names[..|names| - 1], lib).Some? then FirstUnknown(names[..|names| - 1], lib)
    else if names[|names| - 1] in lib.overlays then None
    else Some(names[|names| - 1])
  }

  function OverlaySection(name: string, lib: Library): string
    requires name in lib.overlays
  {
    Section("Domain Overlay: " + name, lib.overlays[name])
  }

  /** The sections of the overlays that are always on, or of the others. */
  function OverlaySections(names: seq<string>, lib: Library, alwaysOn: bool): seq<string>
    requires FirstUnknown(names, lib) == None
  {
    if names == [] then []
    else
      OverlaySections(names[..|names| - 1], lib, alwaysOn)
      + if AlwaysOn(names[|names| - 1]) == alwaysOn then [OverlaySection(names[|names| - 1], lib)] else []
  }

  /** `_clean_block`, as a section or none. */
  function BlockSection(title: string, block: Option<string>): seq<string> {
    if block == None || Strip(block.value) == "" then [] else [Section(title, Strip(block.value))]
  }

  predicate Complete(c: Context, lib: Library) {
    Normal(c.mode) in lib.overlays && FirstUnknown(Unique(c.overlays), lib) == None
  }

  function StableSections(c: Context, lib: Library): seq<string>
    requires Complete(c, lib)
  {
    [Section("Base Soul Document", lib.persona),
     Section("Interaction Mode Overlay: " + c.mode, lib.overlays[Normal(c.mode)])]
    + OverlaySections(Unique(c.overlays), lib, true)
  }

  function ChangingSections(c: Context, lib: Library): seq<string>
    requires Complete(c, lib)
  {
    OverlaySections(Unique(c.overlays), lib, false)
    + BlockSection("Memory Context (Runtime Injected)", c.memory)
    + BlockSection("Additional Runtime Context", c.extra)
  }

  function Halves(c: Context, lib: Library): Result<Prompt, Fault> {
    if Normal(c.mode) !in lib.overlays then Failure(UnknownOverlay(c.mode))
    else
      match FirstUnknown(Unique(c.overlays), lib)
      case Some(name) => Failure(UnknownOverlay(name))
      case None =>
        var changing := ChangingSections(c, lib);
        Success(Prompt(Join(StableSections(c, lib)), if changing == [] then None else Some(Join(changing))))
  }

  /** The loop of `build_sections` over the overlays; `None` when every one is known. */
  method AddOverlays(names: seq<string>, lib: Library) returns (stable: seq<string>, changing: seq<string>, unknown: Option<string>)
    ensures unknown == FirstUnknown(names, lib)
    ensures unknown == None ==> stable == OverlaySections(names, lib, true) && changing == OverlaySections(names, lib, false)
  {
    stable, changing, unknown := [], [], None;
    for i := 0 to |names|
      invariant FirstUnknown(names[..i], lib) == None
      invariant stable == OverlaySections(names[..i], lib, true) && changing == OverlaySections(names[..i], lib, false)
    {
      var name := names[i];
      assert names[..i + 1][..i] == names[..i];
      if name !in lib.overlays {
        UnknownStays(names, lib, i);
        return stable, changing, Some(name);
      }
      if AlwaysOn(name) {
        stable := stable + [OverlaySection(name, lib)];
      } else {
        changing := changing + [OverlaySection(name, lib)];
      }
    }
    assert names[..|names|] == names;
  }

  lemma {:induction false} UnknownStays(names: seq<string>, lib: Library, i: nat)
    requires i < |names| && FirstUnknown(names[..i], lib) == None && names[i] !in lib.overlays
    ensures FirstUnknown(names, lib) == Some(names[i])
  {
    if i == |names| - 1 {
    } else {
      var front := names[..|names| - 1];
      assert front[..i] == names[..i];
      UnknownStays(front, lib, i);
    }
  }

  method BuildSections(c: Context, lib: Library) returns (r: Result<Prompt, Fault>)
    ensures r == Halves(c, lib)
  {
    if Normal(c.mode) !in lib.overlays {
      return Failure(UnknownOverlay(c.mode));
    }
    var stable := [Section("Base Soul Document", lib.persona),
                   Section("Interaction Mode Overlay: " + c.mode, lib.overlays[Normal(c.mode)])];
    var names := UniqueOverlayNames(c.overlays);
    var alwaysOn, changing, unknown := AddOverlays(names, lib);
    if unknown.Some? {
      return Failure(UnknownOverlay(unknown.value));
    }
    stable := stable + alwaysOn;
    changing := changing + BlockSection("Memory Context (Runtime Injected)", c.memory);
    changing := changing + BlockSection("Additional Runtime Context", c.extra);
    return Success(Prompt(Join(stable), if changing == [] then None else Some(Join(changing))));
  }

  // ---------------------------------------------------------------------------
  // The stable half
  // ---------------------------------------------------------------------------

  /** The overlays a command asks for; which domains it touches is decided elsewhere. */
  function DomainOverlays(kicad: bool, minecraft: bool, phone: bool): seq<string> {
    [FILESYSTEM, TOOL_USAGE] + (if kicad then ["kicad"] else []) + (if minecraft then ["minecraft"] else [])
    + (if phone then ["phone"] else [])
  }

  predicate PlainName(name: string) {
    name != "" && forall i :: 0 <= i < |name| ==> 'a' <= name[i] <= 'z' || name[i] == '_'
  }

  lemma {:induction false} PlainCharsStay(name: string)
    requires forall i :: 0 <= i < |name| ==> 'a' <= name[i] <= 'z' || name[i] == '_'
    ensures NormalChars(name) == name
  {
    if name != "" {
      PlainCharsStay(name[1..]);
    }
  }

  lemma PlainNameStays(name: string)
    requires PlainName(name)
    ensures Normal(name) == name
  {
    assert !IsSpace(name[0]) && !IsSpace(name[|name| - 1]);
    PlainCharsStay(name);
  }

  lemma UniqueOneMore(names: seq<string>, name: string)
    requires PlainName(name) && name !in Unique(names)
    ensures Unique(names + [name]) == Unique(names) + [name]
  {
    assert (names + [name])[..|names|] == names;
    PlainNameStays(name);
  }

  /** The names a command can bring in, none of them always on. */
  predicate Extra(name: string) {
    name == "kicad" || name == "minecraft" || name == "phone"
  }

  lemma OverlaysOneMore(names: seq<string>, name: string, lib: Library)
    requires FirstUnknown(names + [name], lib) == None && !AlwaysOn(name)
    ensures FirstUnknown(names, lib) == None
    ensures OverlaySections(names + [name], lib, true) == OverlaySections(names, lib, true)
  {
    assert (names + [name])[..|names|] == names;
  }

  /** Extra overlays behind the standard ones leave the stable overlays alone. */
  lemma {:induction false} ExtrasStayOut(base: seq<string>, extras: seq<string>, lib: Library)
    requires FirstUnknown(base + extras, lib) == None
    requires forall i :: 0 <= i < |extras| ==> !AlwaysOn(extras[i])
    ensures FirstUnknown(base, lib) == None
    ensures OverlaySections(base + extras, lib, true) == OverlaySections(base, lib, true)
  {
    if extras == [] {
      assert base + extras == base;
    } else {
      var front, last := extras[..|extras| - 1], extras[|extras| - 1];
      assert base + extras == (base + front) + [last];
      OverlaysOneMore(base + front, last, lib);
      ExtrasStayOut(base, front, lib);
    }
  }

  predicate Starts(names: seq<string>) {
    |names| >= 2 && names[0] == FILESYSTEM && names[1] == TOOL_USAGE && forall i :: 2 <= i < |names| ==> Extra(names[i])
  }

  lemma ExtrasArePlain(name: string)
    requires Extra(name)
    ensures PlainName(name) && !AlwaysOn(name)
  {
    assert name[0] == 'k' || name[0] == 'm' || name[0] == 'p';
  }

  lemma UniqueExtra(names: seq<string>, name: string)
    requires Extra(name) && Starts(Unique(names))
    ensures Starts(Unique(names + [name]))
  {
    assert (names + [name])[..|names|] == names;
    ExtrasArePlain(name);
    PlainNameStays(name);
  }

  lemma DefaultsArePlain()
    ensures PlainName(FILESYSTEM) && PlainName(TOOL_USAGE) && FILESYSTEM != TOOL_USAGE
  {
    assert FILESYSTEM[0] == 'f' && TOOL_USAGE[0] == 't';
  }

  lemma UniquePair(first: string, second: string)
    requires PlainName(first) && PlainName(second) && first != second
    ensures Unique([first, second]) == [first, second]
  {
    assert Unique([]) == [];
    UniqueOneMore([], first);
    assert [] + [first] == [first];
    UniqueOneMore([first], second);
    assert [first] + [second] == [first, second];
  }

  lemma UniqueOptional(names: seq<string>, wanted: bool, name: string)
    requires Extra(name) && Starts(Unique(names))
    ensures Starts(Unique(names + if wanted then [name] else []))
  {
    if wanted {
      UniqueExtra(names, name);
    } else {
      assert names + [] == names;
    }
  }

  /** Whatever a command asks for, the two standard overlays come first and the rest is extra. */
  lemma CommandOverlaysStartAlike(kicad: bool, minecraft: bool, phone: bool)
    ensures Starts(Unique(DomainOverlays(kicad, minecraft, phone)))
  {
    DefaultsArePlain();
    UniquePair(FILESYSTEM, TOOL_USAGE);
    assert Starts([FILESYSTEM, TOOL_USAGE]);
    hide Unique;
    hide Starts;
    var names := [FILESYSTEM, TOOL_USAGE];
    UniqueOptional(names, kicad, "kicad");
    names := names + if kicad then ["kicad"] else [];
    UniqueOptional(names, minecraft, "minecraft");
    names := names + if minecraft then ["minecraft"] else [];
    UniqueOptional(names, phone, "phone");
  }

  lemma StableOverlays(names: seq<string>, lib: Library)
    requires Starts(names) && FirstUnknown(names, lib) == None
    ensures FirstUnknown([FILESYSTEM, TOOL_USAGE], lib) == None
    ensures OverlaySections(names, lib, true) == OverlaySections([FILESYSTEM, TOOL_USAGE], lib, true)
  {
    var extras := names[2..];
    assert names == [FILESYSTEM, TOOL_USAGE] + extras;
    forall i | 0 <= i < |extras| ensures !AlwaysOn(extras[i]) {
      assert extras[i] == names[i + 2];
      ExtrasArePlain(extras[i]);
    }
    ExtrasStayOut([FILESYSTEM, TOOL_USAGE], extras, lib);
  }

  /** Two turns of one lane have the same stable half, whatever they ask, remember or are told. */
  lemma StableHalfIsStable(first: Context, second: Context, lib: Library,
                           kicad: bool, minecraft: bool, phone: bool, kicad': bool, minecraft': bool, phone': bool)
    requires first.mode == second.mode
    requires first.overlays == DomainOverlays(kicad, minecraft, phone)
    requires second.overlays == DomainOverlays(kicad', minecraft', phone')
    requires Halves(first, lib).Success? && Halves(second, lib).Success?
    ensures Halves(first, lib).value.stable == Halves(second, lib).value.stable
  {
    CommandOverlaysStartAlike(kicad, minecraft, phone);
    CommandOverlaysStartAlike(kicad', minecraft', phone');
    StableOverlays(Unique(first.overlays), lib);
    StableOverlays(Unique(second.overlays), lib);
  }

  // ---------------------------------------------------------------------------
  // The halves together
  // ---------------------------------------------------------------------------

  /** `rstrip("\n")` */
  function RStripNewlines(s: string): string {
    if s != "" && s[|s| - 1] == '\n' then RStripNewlines(s[..|s| - 1]) else s
  }

  function Combined(p: Prompt): string {
    if p.changing == None || p.changing.value == "" then p.stable
    else RStripNewlines(p.stable) + "\n\n" + p.changing.value
  }

  predicate AreSections(sections: seq<string>) {
    forall i :: 0 <= i < |sections| ==> sections[i] != "" && sections[i][0] == '#'
  }

  lemma {:induction false} ParagraphsAppend(a: seq<string>, b: seq<string>)
    requires a != [] && b != []
    ensures Paragraphs(a + b) == Paragraphs(a) + "\n\n" + Paragraphs(b)
  {
    if |a| == 1 {
      assert (a + b)[1..] == b;
    } else {
      assert (a + b)[1..] == a[1..] + b;
      ParagraphsAppend(a[1..], b);
    }
  }

  lemma {:induction false} ParagraphEnds(sections: seq<string>)
    requires sections != [] && AreSections(sections)
    ensures var text := Paragraphs(sections);
            && text != "" && text[0] == '#'
            && (IsSpace(text[|text| - 1]) <==> IsSpace(sections[|sections| - 1][|sections[|sections| - 1]| - 1]))
  {
    if |sections| > 1 {
      ParagraphEnds(sections[1..]);
    }
  }

  /** Stripping reaches only the end of what comes last. */
  lemma {:induction false} StripTail(front: string, text: string)
    requires front != "" && !IsSpace(front[0]) && text != "" && !IsSpace(text[0])
    ensures Strip(front + text) == front + Strip(text)
    decreases |text|
  {
    var all := front + text;
    if IsSpace(text[|text| - 1]) {
      assert all[..|all| - 1] == front + text[..|text| - 1];
      StripTail(front, text[..|text| - 1]);
    }
  }

  lemma {:induction false} StripKeepsStart(text: string)
    requires text != "" && !IsSpace(text[0])
    ensures Strip(text) != "" && Strip(text)[0] == text[0] && Stripped(Strip(text)) && Strip(text) <= text
    decreases |text|
  {
    if IsSpace(text[|text| - 1]) {
      StripKeepsStart(text[..|text| - 1]);
    }
  }

  lemma StripNewlineBack(text: string)
    requires text == "" || !IsSpace(text[|text| - 1])
    ensures RStripNewlines(text + "\n") == text
  {
    hide RStripNewlines;
    hide IsSpace;
    var longer := text + "\n";
    assert longer[..|longer| - 1] == text;
    NoNewlineToStrip(text);
    assert longer[|longer| - 1] == '\n';
    OneNewlineLess(longer);
  }

  lemma NoNewlineToStrip(text: string)
    requires text == "" || !IsSpace(text[|text| - 1])
    ensures RStripNewlines(text) == text
  {
  }

  lemma OneNewlineLess(text: string)
    requires |text| > 0 && text[|text| - 1] == '\n'
    ensures RStripNewlines(text) == RStripNewlines(text[..|text| - 1])
  {
  }

  lemma SameTail(a: string, b: string, tail: string)
    ensures a + "\n\n" + tail == b + "\n\n" + tail <==> a == b
  {
    var x, y := a + "\n\n" + tail, b + "\n\n" + tail;
    if x == y {
      assert |a| == |b| && x[..|a|] == a && y[..|b|] == b;
    }
  }

  /** Taking the prompt apart and putting it together again changes nothing, exactly unless the last stable section is blank. */
  lemma CombinedIsUnsplitIff(stable: seq<string>, changing: seq<string>)
    requires stable != [] && AreSections(stable) && AreSections(changing)
    ensures var p := Prompt(Join(stable), if changing == [] then None else Some(Join(changing)));
            var last := stable[|stable| - 1];
            Combined(p) == Join(stable + changing) <==> changing == [] || !IsSpace(last[|last| - 1])
  {
    hide Paragraphs;
    hide Strip;
    hide RStripNewlines;
    hide IsSpace;
    if changing == [] {
      assert stable + changing == stable;
    } else {
      var x, y := Paragraphs(stable), Paragraphs(changing);
      ParagraphEnds(stable);
      ParagraphEnds(changing);
      HashIsVisible();
      ParagraphsAppend(stable, changing);
      StripTail(x + "\n\n", y);
      StripKeepsStart(x);
      StripFixes(x);
      StripNewlineBack(Strip(x));
      var tail := Strip(y) + "\n";
      SameTail(Strip(x), x, tail);
      assert x + "\n\n" + Strip(y) + "\n" == x + "\n\n" + tail;
    }
  }

  lemma HashIsVisible()
    ensures !IsSpace('#')
  {
  }

  lemma SectionEnds(title: string, body: string)
    ensures var text := Section(title, body);
            text != "" && text[0] == '#' && (IsSpace(text[|text| - 1]) <==> Blank(body))
  {
    StripEmptyIffBlank(body);
    StripFixes(body);
  }

  predicate EndsBlank(sections: seq<string>)
    requires sections != [] && AreSections(sections)
  {
    var last := sections[|sections| - 1];
    IsSpace(last[|last| - 1])
  }

  /** The text of the last overlay that is always on, or `otherwise`. */
  function LastBody(names: seq<string>, lib: Library, otherwise: string): string
    requires FirstUnknown(names, lib) == None
  {
    if names == [] then otherwise
    else if AlwaysOn(names[|names| - 1]) then lib.overlays[names[|names| - 1]]
    else LastBody(names[..|names| - 1], lib, otherwise)
  }

  /** The text that the stable half ends with: that of an always-on overlay, or that of the interaction mode. */
  function StableEnd(c: Context, lib: Library): string
    requires Complete(c, lib)
  {
    LastBody(Unique(c.overlays), lib, lib.overlays[Normal(c.mode)])
  }

  lemma {:induction false} LastBodyIsLast(front: seq<string>, names: seq<string>, lib: Library, title: string, otherwise: string)
    returns (last: string)
    requires FirstUnknown(names, lib) == None && front != [] && front[|front| - 1] == Section(title, otherwise)
    ensures var all := front + OverlaySections(names, lib, true);
            all[|all| - 1] == Section(last, LastBody(names, lib, otherwise))
  {
    hide Section;
    last := title;
    if names == [] {
      assert front + OverlaySections(names, lib, true) == front;
    } else {
      var before, name := names[..|names| - 1], names[|names| - 1];
      if AlwaysOn(name) {
        last := "Domain Overlay: " + name;
      } else {
        last := LastBodyIsLast(front, before, lib, title, otherwise);
        assert OverlaySections(names, lib, true) == OverlaySections(before, lib, true);
      }
    }
  }

  /** The stable half ends in whitespace, before it is stripped, exactly when its last text is blank. */
  lemma EndsBlankIff(c: Context, lib: Library)
    requires Complete(c, lib) && AreSections(StableSections(c, lib))
    ensures EndsBlank(StableSections(c, lib)) <==> Blank(StableEnd(c, lib))
  {
    var title, mode := "Interaction Mode Overlay: " + c.mode, lib.overlays[Normal(c.mode)];
    var front := [Section("Base Soul Document", lib.persona), Section(title, mode)];
    hide Section;
    hide Normal;
    hide Unique;
    var last := LastBodyIsLast(front, Unique(c.overlays), lib, title, mode);
    SectionEnds(last, StableEnd(c, lib));
  }

  lemma {:induction false} OverlaysAreSections(names: seq<string>, lib: Library, alwaysOn: bool)
    requires FirstUnknown(names, lib) == None
    ensures AreSections(OverlaySections(names, lib, alwaysOn))
  {
    if names != [] {
      OverlaysAreSections(names[..|names| - 1], lib, alwaysOn);
    }
  }

  lemma HalvesAreSections(c: Context, lib: Library)
    requires Complete(c, lib)
    ensures StableSections(c, lib) != [] && AreSections(StableSections(c, lib)) && AreSections(ChangingSections(c, lib))
  {
    hide Strip;
    hide Normal;
    hide Unique;
    hide OverlaySections;
    OverlaysAreSections(Unique(c.overlays), lib, true);
    OverlaysAreSections(Unique(c.overlays), lib, false);
  }

  /**
   The prompt of a turn is the same whether it is split or not, exactly unless the text that the stable half ends with
   is blank and something follows it.
   */
  lemma PromptIsUnsplitIff(c: Context, lib: Library)
    requires Halves(c, lib).Success?
    ensures Combined(Halves(c, lib).value) == Join(StableSections(c, lib) + ChangingSections(c, lib))
            <==> ChangingSections(c, lib) == [] || !Blank(StableEnd(c, lib))
  {
    hide StableSections;
    hide ChangingSections;
    hide Combined;
    hide Join;
    hide StableEnd;
    HalvesAreSections(c, lib);
    CombinedIsUnsplitIff(StableSections(c, lib), ChangingSections(c, lib));
    EndsBlankIff(c, lib);
  }

  /** An empty overlay file and a memory block: the two assemblies differ. */
  lemma EmptyOverlayShows()
    ensures var c, lib := Context("text", [], Some("m"), None), Library("p", map["text" := ""]);
            && Halves(c, lib).Success?
            && Combined(Halves(c, lib).value) != Join(StableSections(c, lib) + ChangingSections(c, lib))
  {
    var c, lib := Context("text", [], Some("m"), None), Library("p", map["text" := ""]);
    PlainNameStays("text");
    assert Strip("m") == "m" by {
      assert !IsSpace('m');
    }
    assert Unique([]) == [] && FirstUnknown([], lib) == None;
    assert StableEnd(c, lib) == "";
    assert |BlockSection("Memory Context (Runtime Injected)", c.memory)| == 1;
    hide *;
    PromptIsUnsplitIff(c, lib);
  }
}
