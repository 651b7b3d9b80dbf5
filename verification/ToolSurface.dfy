/**
 Which tools the model is shown, and in which order: told by their names
 (butler/agent/runtime.py, `_reduce_tool_surface` and `_order_tools_by_volatility`).
 */
module ToolSurface {
  import opened ToolOrder

  /** The name begins with the prefix. */
  predicate Begins(name: string, prefix: string) {
    |prefix| <= |name| && forall i :: 0 <= i < |prefix| ==> name[i] == prefix[i]
  }

  /** A tool that comes and goes: the phone, KiCad, and the two Minecraft servers. */
  predicate ComesAndGoes(s: Surface, name: string) {
    name == "phone" || Begins(name, s.kicad) || Begins(name, s.minecraft) || Begins(name, s.minecraftFiles)
  }

  /** The names are alike up to place `k`, where the first one ends or has the smaller character. */
  predicate Differ(a: string, b: string, k: nat) {
    && k <= |a| && k <= |b| && (forall i :: 0 <= i < k ==> a[i] == b[i])
    && (k == |a| || (k < |b| && a[k] < b[k]))
  }

  /** The first difference decides; a name comes before its extensions. */
  ghost predicate NotBehind(a: string, b: string) {
    exists k: nat :: Differ(a, b, k)
  }

  lemma BeginsIs(name: string, prefix: string)
    ensures Begins(name, prefix) <==> StartsWith(name, prefix)
  {
  }

  lemma RankIs(s: Surface, name: string)
    ensures Rank(s, name) == if ComesAndGoes(s, name) then 1 else 0
  {
    BeginsIs(name, s.kicad);
    BeginsIs(name, s.minecraft);
    BeginsIs(name, s.minecraftFiles);
    hide Begins;
    hide StartsWith;
  }

  lemma {:induction false} LeqIs(a: string, b: string)
    requires Leq(a, b)
    ensures NotBehind(a, b)
  {
    if a == "" || a[0] < b[0] {
      assert Differ(a, b, 0);
    } else {
      LeqIs(a[1..], b[1..]);
      var k: nat :| Differ(a[1..], b[1..], k);
      DifferLater(a, b, k);
    }
  }

  lemma DifferLater(a: string, b: string, k: nat)
    requires a != "" && b != "" && a[0] == b[0] && Differ(a[1..], b[1..], k)
    ensures Differ(a, b, k + 1)
  {
    forall i | 0 <= i < k + 1 ensures a[i] == b[i] {
      if i > 0 {
        assert a[1..][i - 1] == b[1..][i - 1];
      }
    }
  }

  // ---------------------------------------------------------------------------
  // Which tools
  // ---------------------------------------------------------------------------

  /** A tool is left out only if it is KiCad's and the rest of its name is not one of the preferred ones. */
  predicate LeftOut(s: Surface, t: Tool) {
    Begins(t.name, s.kicad) && t.name[|s.kicad|..] !in s.preferred
  }

  lemma {:induction false} ReducedCounts(s: Surface, tools: seq<Tool>, t: Tool)
    ensures multiset(Reduced(s, tools))[t] == if LeftOut(s, t) then 0 else multiset(tools)[t]
  {
    if tools != [] {
      var front, last := tools[..|tools| - 1], tools[|tools| - 1];
      assert tools == front + [last];
      ReducedCounts(s, front, t);
      BeginsIs(last.name, s.kicad);
      hide Begins;
      hide StartsWith;
    }
  }

  /** Every tool is published as often as it is offered, or, with the reduction, not at all if it is left out. */
  lemma PublishedAre(s: Surface, tools: seq<Tool>, reduce: bool, t: Tool)
    ensures multiset(Published(s, tools, reduce))[t] == if reduce && LeftOut(s, t) then 0 else multiset(tools)[t]
  {
    ReducedCounts(s, tools, t);
    OrderSorts(s, if reduce then Reduced(s, tools) else tools);
  }

  // ---------------------------------------------------------------------------
  // In which order
  // ---------------------------------------------------------------------------

  /** Of two published tools, one that comes and goes is never in front of one that does not, and otherwise names ascend. */
  lemma PublishedInOrder(s: Surface, tools: seq<Tool>, reduce: bool, i: nat, j: nat)
    requires i < j < |Published(s, tools, reduce)|
    ensures var x, y := Published(s, tools, reduce)[i].name, Published(s, tools, reduce)[j].name;
            && (ComesAndGoes(s, x) ==> ComesAndGoes(s, y))
            && ((ComesAndGoes(s, x) <==> ComesAndGoes(s, y)) ==> NotBehind(x, y))
  {
    hide ComesAndGoes;
    hide NotBehind;
    hide Leq;
    hide Rank;
    OrderSorts(s, if reduce then Reduced(s, tools) else tools);
    var x, y := Published(s, tools, reduce)[i].name, Published(s, tools, reduce)[j].name;
    RankIs(s, x);
    RankIs(s, y);
    if Leq(x, y) {
      LeqIs(x, y);
    }
  }
}
