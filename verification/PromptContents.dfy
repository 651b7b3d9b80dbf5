/**
 What is in the two halves of the system prompt, and where
 (butler/agent/prompting.py, `build_sections`).
 */
module PromptContents {
  import opened PyText
  import opened TextMeaning
  import opened PromptAssembly

  /** The two overlays that belong to every turn. */
  predicate Standard(name: string) {
    name == "filesystem" || name == "tool_usage"
  }

  /** The names of the selected overlays that are standard, or that are not, in their order. */
  function Selected(names: seq<string>, standard: bool): seq<string> {
    if names == [] then []
    else Selected(names[..|names| - 1], standard) + if Standard(names[|names| - 1]) == standard then [names[|names| - 1]] else []
  }

  /** The section of one overlay, as the model reads it. */
  function OverlayText(name: string, text: string): string {
    "## Domain Overlay: " + name + "\n\n" + Strip(text)
  }

  /** The sections of overlays in the order of their names. */
  predicate Show(sections: seq<string>, names: seq<string>, lib: Library) {
    && |sections| == |names|
    && forall i :: 0 <= i < |names| ==> names[i] in lib.overlays && sections[i] == OverlayText(names[i], lib.overlays[names[i]])
  }

  lemma {:induction false} OverlaysAreShown(names: seq<string>, lib: Library, standard: bool)
    requires FirstUnknown(names, lib) == None
    ensures Show(OverlaySections(names, lib, standard), Selected(names, standard), lib)
  {
    if names != [] {
      var front, last := names[..|names| - 1], names[|names| - 1];
      OverlaysAreShown(front, lib, standard);
      OneOverlay(last, lib);
      hide OverlaySection;
      hide OverlayText;
    }
  }

  lemma OneOverlay(name: string, lib: Library)
    requires name in lib.overlays
    ensures OverlaySection(name, lib) == OverlayText(name, lib.overlays[name])
  {
    assert "## " + ("Domain Overlay: " + name) == "## Domain Overlay: " + name;
  }

  /** A block that is there and not blank, as a section. */
  function BlockText(title: string, block: Option<string>): seq<string> {
    if block.Some? && !Blank(block.value) then ["## " + title + "\n\n" + Strip(block.value)] else []
  }

  lemma BlockIs(title: string, block: Option<string>)
    ensures BlockSection(title, block) == BlockText(title, block)
  {
    if block.Some? {
      StripEmptyIffBlank(block.value);
      StripFixes(block.value);
    }
  }

  /**
   The stable half holds the persona, the mode and the standard overlays; the changing half the other selected overlays
   in the order in which they were asked for, then the memory and then the extra context, if they are not blank.
   */
  lemma HalvesHold(c: Context, lib: Library) returns (standard: seq<string>, selected: seq<string>)
    requires Complete(c, lib)
    ensures Show(standard, Selected(Unique(c.overlays), true), lib) && Show(selected, Selected(Unique(c.overlays), false), lib)
    ensures StableSections(c, lib)
            == ["## Base Soul Document\n\n" + Strip(lib.persona),
                "## Interaction Mode Overlay: " + c.mode + "\n\n" + Strip(lib.overlays[Normal(c.mode)])] + standard
    ensures ChangingSections(c, lib)
            == selected + BlockText("Memory Context (Runtime Injected)", c.memory)
               + BlockText("Additional Runtime Context", c.extra)
  {
    hide OverlaySections;
    hide Show;
    hide Unique;
    hide Selected;
    hide Strip;
    hide Section;
    hide BlockSection;
    hide BlockText;
    var names := Unique(c.overlays);
    standard, selected := OverlaySections(names, lib, true), OverlaySections(names, lib, false);
    OverlaysAreShown(names, lib, true);
    OverlaysAreShown(names, lib, false);
    BlockIs("Memory Context (Runtime Injected)", c.memory);
    BlockIs("Additional Runtime Context", c.extra);
    FirstSections(c.mode, lib.persona, lib.overlays[Normal(c.mode)]);
  }

  lemma FirstSections(mode: string, persona: string, text: string)
    ensures Section("Base Soul Document", persona) == "## Base Soul Document\n\n" + Strip(persona)
    ensures Section("Interaction Mode Overlay: " + mode, text) == "## Interaction Mode Overlay: " + mode + "\n\n" + Strip(text)
  {
    hide Strip;
    assert "## " + "Base Soul Document" + "\n\n" == "## Base Soul Document\n\n";
    assert "## " + ("Interaction Mode Overlay: " + mode) == "## Interaction Mode Overlay: " + mode;
  }

  /** A selected overlay is in the half it belongs to, and in no other. */
  lemma {:induction false} SelectedOnce(names: seq<string>, name: string)
    ensures name in Selected(names, Standard(name)) <==> name in names
    ensures name !in Selected(names, !Standard(name))
  {
    if names != [] {
      SelectedOnce(names[..|names| - 1], name);
      assert names == names[..|names| - 1] + [names[|names| - 1]];
    }
  }

  predicate AllKnown(names: seq<string>, lib: Library) {
    forall i :: 0 <= i < |names| ==> names[i] in lib.overlays
  }

  /** When the prompt cannot be built: the mode, or else the first selected overlay, that there is no text for. */
  lemma FailsIff(c: Context, lib: Library)
    ensures Halves(c, lib).Success? <==> Normal(c.mode) in lib.overlays && AllKnown(Unique(c.overlays), lib)
    ensures Normal(c.mode) !in lib.overlays ==> Halves(c, lib) == Failure(UnknownOverlay(c.mode))
    ensures forall i :: 0 <= i < |Unique(c.overlays)| && Normal(c.mode) in lib.overlays
                        && AllKnown(Unique(c.overlays)[..i], lib) && Unique(c.overlays)[i] !in lib.overlays ==>
              Halves(c, lib) == Failure(UnknownOverlay(Unique(c.overlays)[i]))
  {
    var names := Unique(c.overlays);
    UnknownIff(names, lib);
    hide AllKnown;
    forall i | 0 <= i < |names| && AllKnown(names[..i], lib) && names[i] !in lib.overlays
      ensures FirstUnknown(names, lib) == Some(names[i])
    {
      UnknownIff(names[..i], lib);
      UnknownStays(names, lib, i);
    }
  }

  lemma {:induction false} UnknownIff(names: seq<string>, lib: Library)
    ensures FirstUnknown(names, lib) == None <==> AllKnown(names, lib)
  {
    if names != [] {
      UnknownIff(names[..|names| - 1], lib);
      KnownStep(names, lib);
      hide AllKnown;
    }
  }

  lemma KnownStep(names: seq<string>, lib: Library)
    requires names != []
    ensures AllKnown(names, lib) <==> AllKnown(names[..|names| - 1], lib) && names[|names| - 1] in lib.overlays
  {
    var front := names[..|names| - 1];
    assert forall i :: 0 <= i < |front| ==> front[i] == names[i];
  }

  /** A command asks for the two standard overlays, and for each domain that it touches. */
  lemma CommandAsksFor(kicad: bool, minecraft: bool, phone: bool, name: string)
    ensures name in DomainOverlays(kicad, minecraft, phone) <==>
              || name == "filesystem" || name == "tool_usage"
              || (name == "kicad" && kicad) || (name == "minecraft" && minecraft) || (name == "phone" && phone)
  {
  }

  // ---------------------------------------------------------------------------
  // Names in normal form
  // ---------------------------------------------------------------------------

  /** Blanks around a name do not count, capitals are small letters, and hyphens are underscores. */
  lemma NormalMeans(front: string, name: string, back: string, i: nat)
    requires Blank(front) && Stripped(name) && Blank(back) && i < |name|
    ensures |Normal(front + name + back)| == |name|
    ensures var c, d := name[i], Normal(front + name + back)[i];
            && ('A' <= c <= 'Z' ==> 'a' <= d <= 'z' && d as int - 'a' as int == c as int - 'A' as int)
            && (c == '-' ==> d == '_')
            && (!('A' <= c <= 'Z') && c != '-' ==> d == c)
  {
    StripTakesBlanks(front, name, back);
    CharsAre(name, i);
  }

  lemma {:induction false} CharsAre(name: string, i: nat)
    requires i < |name|
    ensures NormalChars(name)[i] == NormalChar(name[i])
  {
    if i > 0 {
      CharsAre(name[1..], i - 1);
    }
  }
}
