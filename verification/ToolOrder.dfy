/**
 The order in which tools are published to the model (butler/agent/runtime.py,
 `_reduce_tool_surface`, `_tool_volatility_rank`, `_order_tools_by_volatility`).
 */
module ToolOrder {

  datatype Tool = Tool(name: string, definition: string)

  /** Configured name prefixes, and the suffixes of the KiCad tools that are kept. */
  datatype Surface = Surface(kicad: string, minecraft: string, minecraftFiles: string, preferred: set<string>)

  /** `name.startswith(prefix)` */
  predicate StartsWith(name: string, prefix: string) {
    prefix <= name
  }

  /** 0 for a tool that is always published, 1 for one that comes and goes. */
  function Rank(s: Surface, name: string): nat {
    if name == "phone" then 1
    else if StartsWith(name, s.kicad) || StartsWith(name, s.minecraft) || StartsWith(name, s.minecraftFiles) then 1
    else 0
  }

  /** Strings in the order of their characters. */
  predicate Leq(a: string, b: string) {
    a == "" || (b != "" && (a[0] < b[0] || (a[0] == b[0] && Leq(a[1..], b[1..]))))
  }

  predicate KeyLeq(s: Surface, x: Tool, y: Tool) {
    Rank(s, x.name) < Rank(s, y.name) || (Rank(s, x.name) == Rank(s, y.name) && Leq(x.name, y.name))
  }

  /** Behind everything that is not greater. */
  function Insert(s: Surface, sorted: seq<Tool>, t: Tool): seq<Tool> {
    if sorted == [] || KeyLeq(s, sorted[|sorted| - 1], t) then sorted + [t]
    else Insert(s, sorted[..|sorted| - 1], t) + [sorted[|sorted| - 1]]
  }

  /** `sorted(tools, key=(rank, name))`: equal keys keep their order. */
  function OrderByVolatility(s: Surface, tools: seq<Tool>): seq<Tool> {
    if tools == [] then [] else Insert(s, OrderByVolatility(s, tools[..|tools| - 1]), tools[|tools| - 1])
  }

  predicate IsKept(s: Surface, t: Tool) {
    StartsWith(t.name, s.kicad) ==> t.name[|s.kicad|..] in s.preferred
  }

  function Reduced(s: Surface, tools: seq<Tool>): seq<Tool> {
    if tools == [] then []
    else Reduced(s, tools[..|tools| - 1]) + if IsKept(s, tools[|tools| - 1]) then [tools[|tools| - 1]] else []
  }

  method ReduceToolSurface(s: Surface, tools: seq<Tool>) returns (reduced: seq<Tool>)
    ensures reduced == Reduced(s, tools)
  {
    reduced := [];
    for i := 0 to |tools|
      invariant reduced == Reduced(s, tools[..i])
    {
      assert tools[..i + 1][..i] == tools[..i];
      var name := tools[i].name;
      if !StartsWith(name, s.kicad) {
        reduced := reduced + [tools[i]];
      } else if name[|s.kicad|..] in s.preferred {
        reduced := reduced + [tools[i]];
      }
    }
    assert tools[..|tools|] == tools;
  }

  /** The list that goes to the model, with or without the reduction. */
  function Published(s: Surface, tools: seq<Tool>, reduce: bool): seq<Tool> {
    OrderByVolatility(s, if reduce then Reduced(s, tools) else tools)
  }

  // ---------------------------------------------------------------------------
  // It sorts
  // ---------------------------------------------------------------------------

  lemma {:induction false} LeqTotal(a: string, b: string)
    ensures Leq(a, b) || Leq(b, a)
    ensures Leq(a, b) && Leq(b, a) ==> a == b
  {
    if a != "" && b != "" {
      LeqTotal(a[1..], b[1..]);
      assert a == [a[0]] + a[1..] && b == [b[0]] + b[1..];
    }
  }

  lemma {:induction false} LeqTransitive(a: string, b: string, c: string)
    requires Leq(a, b) && Leq(b, c)
    ensures Leq(a, c)
  {
    if a != "" && a[0] == b[0] && b[0] == c[0] {
      LeqTransitive(a[1..], b[1..], c[1..]);
    }
  }

  lemma KeyOrder(s: Surface, x: Tool, y: Tool, z: Tool)
    ensures KeyLeq(s, x, y) || KeyLeq(s, y, x)
    ensures KeyLeq(s, x, y) && KeyLeq(s, y, x) ==> x.name == y.name
    ensures KeyLeq(s, x, y) && KeyLeq(s, y, z) ==> KeyLeq(s, x, z)
  {
    LeqTotal(x.name, y.name);
    if Leq(x.name, y.name) && Leq(y.name, z.name) {
      LeqTransitive(x.name, y.name, z.name);
    }
  }

  predicate Sorted(s: Surface, tools: seq<Tool>) {
    forall i, j :: 0 <= i < j < |tools| ==> KeyLeq(s, tools[i], tools[j])
  }

  lemma {:induction false} InsertKeepsTools(s: Surface, sorted: seq<Tool>, t: Tool)
    ensures multiset(Insert(s, sorted, t)) == multiset(sorted) + multiset{t}
  {
    if sorted != [] {
      var front, last := sorted[..|sorted| - 1], sorted[|sorted| - 1];
      assert sorted == front + [last];
      if !KeyLeq(s, last, t) {
        InsertKeepsTools(s, front, t);
      }
    }
  }

  lemma {:induction false} InsertSorts(s: Surface, sorted: seq<Tool>, t: Tool)
    requires Sorted(s, sorted)
    ensures Sorted(s, Insert(s, sorted, t))
  {
    hide KeyLeq;
    if sorted != [] {
      var front, last := sorted[..|sorted| - 1], sorted[|sorted| - 1];
      if KeyLeq(s, last, t) {
        forall i | 0 <= i < |sorted| ensures KeyLeq(s, sorted[i], t) {
          KeyOrder(s, sorted[i], last, t);
        }
      } else {
        InsertSorts(s, front, t);
        InsertKeepsTools(s, front, t);
        var placed := Insert(s, front, t);
        forall i | 0 <= i < |placed| ensures KeyLeq(s, placed[i], last) {
          assert placed[i] in multiset(front) + multiset{t};
          KeyOrder(s, t, last, last);
        }
      }
    }
  }

  /** The published list is sorted and holds the same tools. */
  lemma {:induction false} OrderSorts(s: Surface, tools: seq<Tool>)
    ensures Sorted(s, OrderByVolatility(s, tools))
    ensures multiset(OrderByVolatility(s, tools)) == multiset(tools)
  {
    if tools != [] {
      var front, last := tools[..|tools| - 1], tools[|tools| - 1];
      assert tools == front + [last];
      OrderSorts(s, front);
      InsertSorts(s, OrderByVolatility(s, front), last);
      InsertKeepsTools(s, OrderByVolatility(s, front), last);
    }
  }

  // ---------------------------------------------------------------------------
  // The leading block
  // ---------------------------------------------------------------------------

  function OfRank(s: Surface, tools: seq<Tool>, rank: nat): seq<Tool> {
    if tools == [] then []
    else OfRank(s, tools[..|tools| - 1], rank) + if Rank(s, tools[|tools| - 1].name) == rank then [tools[|tools| - 1]] else []
  }

  predicate AllOfRank(s: Surface, tools: seq<Tool>, rank: nat) {
    forall i :: 0 <= i < |tools| ==> Rank(s, tools[i].name) == rank
  }

  lemma {:induction false} InsertBehind(s: Surface, first: seq<Tool>, second: seq<Tool>, t: Tool)
    requires AllOfRank(s, first, 0) && AllOfRank(s, second, 1) && Rank(s, t.name) == 1
    ensures Insert(s, first + second, t) == first + Insert(s, second, t)
    ensures AllOfRank(s, Insert(s, second, t), 1)
    decreases |second|
  {
    var all := first + second;
    if second == [] {
      assert all == first;
      assert first + Insert(s, second, t) == first + [t];
    } else {
      var last := second[|second| - 1];
      assert all[|all| - 1] == last && all[..|all| - 1] == first + second[..|second| - 1];
      if !KeyLeq(s, last, t) {
        InsertBehind(s, first, second[..|second| - 1], t);
      }
    }
  }

  lemma {:induction false} InsertInFront(s: Surface, first: seq<Tool>, second: seq<Tool>, t: Tool)
    requires AllOfRank(s, first, 0) && AllOfRank(s, second, 1) && Rank(s, t.name) == 0
    ensures Insert(s, first + second, t) == Insert(s, first, t) + second
    decreases |second|
  {
    var all := first + second;
    if second == [] {
      assert all == first;
    } else {
      var last := second[|second| - 1];
      assert all[|all| - 1] == last && all[..|all| - 1] == first + second[..|second| - 1];
      InsertInFront(s, first, second[..|second| - 1], t);
      assert second == second[..|second| - 1] + [last];
    }
  }

  lemma {:induction false} InsertKeepsRank(s: Surface, first: seq<Tool>, t: Tool)
    requires AllOfRank(s, first, 0) && Rank(s, t.name) == 0
    ensures AllOfRank(s, Insert(s, first, t), 0)
  {
    if first != [] && !KeyLeq(s, first[|first| - 1], t) {
      InsertKeepsRank(s, first[..|first| - 1], t);
    }
  }

  /** The always-on tools, in their own order, come first; the others follow in theirs. */
  lemma {:induction false} OrderSplits(s: Surface, tools: seq<Tool>)
    ensures OrderByVolatility(s, tools)
            == OrderByVolatility(s, OfRank(s, tools, 0)) + OrderByVolatility(s, OfRank(s, tools, 1))
    ensures AllOfRank(s, OrderByVolatility(s, OfRank(s, tools, 0)), 0)
    ensures AllOfRank(s, OrderByVolatility(s, OfRank(s, tools, 1)), 1)
  {
    if tools != [] {
      var front, last := tools[..|tools| - 1], tools[|tools| - 1];
      OrderSplits(s, front);
      var on, off := OrderByVolatility(s, OfRank(s, front, 0)), OrderByVolatility(s, OfRank(s, front, 1));
      if Rank(s, last.name) == 0 {
        InsertInFront(s, on, off, last);
        InsertKeepsRank(s, on, last);
        OrderOneMore(s, OfRank(s, front, 0), last);
        assert OfRank(s, front, 1) + [] == OfRank(s, front, 1);
      } else {
        InsertBehind(s, on, off, last);
        OrderOneMore(s, OfRank(s, front, 1), last);
        assert OfRank(s, front, 0) + [] == OfRank(s, front, 0);
      }
    }
  }

  lemma OrderOneMore(s: Surface, tools: seq<Tool>, t: Tool)
    ensures OrderByVolatility(s, tools + [t]) == Insert(s, OrderByVolatility(s, tools), t)
  {
    assert (tools + [t])[..|tools|] == tools;
  }

  predicate UniqueNames(tools: seq<Tool>) {
    forall i, j :: 0 <= i < j < |tools| ==> tools[i].name != tools[j].name
  }

  ghost predicate SameTools(a: seq<Tool>, b: seq<Tool>) {
    forall t :: t in a <==> t in b
  }

  lemma SameEmpty(a: seq<Tool>, b: seq<Tool>)
    requires SameTools(a, b)
    ensures a == [] <==> b == []
  {
    assert a != [] ==> a[0] in a;
    assert b != [] ==> b[0] in b;
  }

  /** Two sorted lists of the same tools end alike. */
  lemma SameLast(s: Surface, a: seq<Tool>, b: seq<Tool>)
    requires Sorted(s, a) && Sorted(s, b) && SameTools(a, b) && UniqueNames(a) && a != [] && b != []
    ensures a[|a| - 1] == b[|b| - 1]
  {
    hide KeyLeq;
    var last, end := a[|a| - 1], b[|b| - 1];
    assert last in b && end in a;
    var i :| 0 <= i < |a| && a[i] == end;
    var j :| 0 <= j < |b| && b[j] == last;
    assert i < |a| - 1 ==> KeyLeq(s, end, last);
    assert j < |b| - 1 ==> KeyLeq(s, last, end);
    KeyOrder(s, last, end, end);
  }

  lemma WithoutLast(a: seq<Tool>, t: Tool)
    requires a != [] && UniqueNames(a)
    ensures t in a[..|a| - 1] <==> t in a && t != a[|a| - 1]
  {
    if t in a && t != a[|a| - 1] {
      var i :| 0 <= i < |a| && a[i] == t;
      assert a[..|a| - 1][i] == t;
    }
  }

  /** A sorted list of tools with different names is determined by which tools it holds. */
  lemma {:induction false} SortedIsUnique(s: Surface, a: seq<Tool>, b: seq<Tool>)
    requires Sorted(s, a) && Sorted(s, b) && SameTools(a, b) && UniqueNames(a) && UniqueNames(b)
    ensures a == b
    decreases |a|
  {
    hide KeyLeq;
    if a == [] {
      SameEmpty(a, b);
    } else {
      SameEmpty(a, b);
      SameLast(s, a, b);
      var front, head := a[..|a| - 1], b[..|b| - 1];
      forall t ensures t in front <==> t in head {
        WithoutLast(a, t);
        WithoutLast(b, t);
      }
      SortedIsUnique(s, front, head);
      assert a == a[..|a| - 1] + [a[|a| - 1]] && b == b[..|b| - 1] + [b[|b| - 1]];
    }
  }

  lemma {:induction false} ReductionKeepsAlwaysOn(s: Surface, tools: seq<Tool>)
    ensures OfRank(s, Reduced(s, tools), 0) == OfRank(s, tools, 0)
  {
    if tools != [] {
      var front, last := tools[..|tools| - 1], tools[|tools| - 1];
      ReductionKeepsAlwaysOn(s, front);
      if IsKept(s, last) {
        assert (Reduced(s, front) + [last])[..|Reduced(s, front)|] == Reduced(s, front);
      } else {
        assert Reduced(s, front) + [] == Reduced(s, front);
      }
    }
  }

  /**
   Two turns that agree on the always-on tools publish the same leading block, whatever other tools come
   and go, in whatever order the servers are listed, and whether or not the KiCad surface is reduced.
   */
  lemma LeadingToolsAreStable(s: Surface, before: seq<Tool>, after: seq<Tool>, reduceBefore: bool, reduceAfter: bool)
    requires SameTools(OfRank(s, before, 0), OfRank(s, after, 0))
    requires UniqueNames(OfRank(s, before, 0)) && UniqueNames(OfRank(s, after, 0))
    ensures var block := OrderByVolatility(s, OfRank(s, before, 0));
            && block <= Published(s, before, reduceBefore) && block <= Published(s, after, reduceAfter)
            && |block| == |OfRank(s, before, 0)| && SameTools(block, OfRank(s, before, 0))
  {
    var first, second := OfRank(s, before, 0), OfRank(s, after, 0);
    hide Published;
    hide OrderByVolatility;
    hide OfRank;
    hide Sorted;
    hide UniqueNames;
    LeadingBlock(s, before, reduceBefore);
    LeadingBlock(s, after, reduceAfter);
    OrderSorts(s, first);
    OrderSorts(s, second);
    UniqueAfterSorting(s, first);
    UniqueAfterSorting(s, second);
    SortedIsUnique(s, OrderByVolatility(s, first), OrderByVolatility(s, second));
  }

  lemma LeadingBlock(s: Surface, tools: seq<Tool>, reduce: bool)
    ensures OrderByVolatility(s, OfRank(s, tools, 0)) <= Published(s, tools, reduce)
    ensures |OrderByVolatility(s, OfRank(s, tools, 0))| == |OfRank(s, tools, 0)|
  {
    ReductionKeepsAlwaysOn(s, tools);
    OrderSplits(s, if reduce then Reduced(s, tools) else tools);
    OrderSorts(s, OfRank(s, tools, 0));
    assert |multiset(OrderByVolatility(s, OfRank(s, tools, 0)))| == |multiset(OfRank(s, tools, 0))|;
  }

  lemma {:induction false} UniqueAfterInsert(s: Surface, sorted: seq<Tool>, t: Tool)
    requires UniqueNames(sorted + [t])
    ensures UniqueNames(Insert(s, sorted, t))
    ensures forall x :: x in Insert(s, sorted, t) <==> x == t || x in sorted
  {
    if sorted != [] && !KeyLeq(s, sorted[|sorted| - 1], t) {
      var front, last := sorted[..|sorted| - 1], sorted[|sorted| - 1];
      assert sorted == front + [last];
      assert forall i :: 0 <= i < |sorted| ==> (sorted + [t])[i] == sorted[i] && (sorted + [t])[|sorted|] == t;
      assert UniqueNames(front + [t]);
      UniqueAfterInsert(s, front, t);
      var placed := Insert(s, front, t);
      forall i | 0 <= i < |placed| ensures placed[i].name != last.name {
        assert placed[i] == t || placed[i] in front;
      }
    }
  }

  lemma {:induction false} UniqueAfterSorting(s: Surface, tools: seq<Tool>)
    requires UniqueNames(tools)
    ensures UniqueNames(OrderByVolatility(s, tools))
    ensures forall x :: x in OrderByVolatility(s, tools) <==> x in tools
  {
    if tools != [] {
      var front, last := tools[..|tools| - 1], tools[|tools| - 1];
      assert tools == front + [last];
      UniqueAfterSorting(s, front);
      var sorted := OrderByVolatility(s, front);
      forall i | 0 <= i < |sorted| ensures sorted[i].name != last.name {
        assert sorted[i] in front;
      }
      UniqueAfterInsert(s, sorted, last);
    }
  }
}
