/** The registry of tools with temporarily unlocked hidden ones (pkg/tools/registry.go). */
module ToolRegistry {

  datatype Tool = Tool(name: string, description: string)

  datatype ToolEntry = ToolEntry(tool: Tool, isCore: bool, ttl: int)

  /** A hidden tool as the search sees it. */
  datatype Doc = Doc(name: string, description: string)

  datatype Registry = Registry(tools: map<string, ToolEntry>, version: nat)

  // ---------- What the operations do ----------

  function Registered(r: Registry, tool: Tool, isCore: bool): Registry {
    Registry(r.tools[tool.name := ToolEntry(tool, isCore, 0)], r.version + 1)
  }

  function Promoted(r: Registry, names: seq<string>, ttl: int): Registry {
    r.(tools := map name | name in r.tools ::
      if name in names && !r.tools[name].isCore then r.tools[name].(ttl := ttl) else r.tools[name])
  }

  function Ticked(r: Registry): Registry {
    r.(tools := map name | name in r.tools ::
      if !r.tools[name].isCore && 0 < r.tools[name].ttl then r.tools[name].(ttl := r.tools[name].ttl - 1) else r.tools[name])
  }

  predicate Visible(r: Registry, name: string) {
    name in r.tools && (r.tools[name].isCore || 0 < r.tools[name].ttl)
  }

  function HiddenDocs(r: Registry): set<Doc> {
    set name | name in r.tools && !r.tools[name].isCore :: Doc(name, r.tools[name].tool.description)
  }

  class ToolRegistry {
    var tools: map<string, ToolEntry>
    var version: nat

    constructor ()
      ensures Contents() == Registry(map[], 0)
    {
      tools, version := map[], 0;
    }

    function Contents(): Registry
      reads this
    {
      Registry(tools, version)
    }

    method Register(tool: Tool)
      modifies this
      ensures Contents() == Registered(old(Contents()), tool, true)
    {
      tools := tools[tool.name := ToolEntry(tool, true, 0)];
      version := version + 1;
    }

    method RegisterHidden(tool: Tool)
      modifies this
      ensures Contents() == Registered(old(Contents()), tool, false)
    {
      tools := tools[tool.name := ToolEntry(tool, false, 0)];
      version := version + 1;
    }

    method PromoteTools(names: seq<string>, ttl: int)
      modifies this`tools
      ensures Contents() == Promoted(old(Contents()), names, ttl)
    {
      for i := 0 to |names|
        invariant Contents() == Promoted(old(Contents()), names[..i], ttl)
      {
        assert names[..i + 1] == names[..i] + [names[i]];
        var name := names[i];
        if name in tools {
          var entry := tools[name];
          if !entry.isCore {
            tools := tools[name := entry.(ttl := ttl)];
          }
        }
        assert tools == Promoted(old(Contents()), names[..i + 1], ttl).tools;
      }
      assert names[..|names|] == names;
    }

    /** Visits the entries in any order. */
    method TickTTL()
      modifies this`tools
      ensures Contents() == Ticked(old(Contents()))
    {
      var todo := tools.Keys;
      while todo != {}
        invariant tools.Keys == old(tools).Keys && todo <= tools.Keys
        invariant forall name :: name in todo ==> tools[name] == old(tools)[name]
        invariant forall name :: name in tools && name !in todo ==> tools[name] == Ticked(old(Contents())).tools[name]
        decreases todo
      {
        var name :| name in todo;
        todo := todo - {name};
        var entry := tools[name];
        if !entry.isCore && 0 < entry.ttl {
          tools := tools[name := entry.(ttl := entry.ttl - 1)];
        }
      }
      assert tools == Ticked(old(Contents())).tools;
    }

    /** The hidden tools and the version they belong to, read under one lock. */
    method SnapshotHiddenTools() returns (docs: seq<Doc>, v: nat)
      ensures v == version
      ensures forall d :: d in docs <==> d in HiddenDocs(Contents())
    {
      docs, v := [], version;
      var todo := tools.Keys;
      while todo != {}
        invariant todo <= tools.Keys
        invariant forall d :: d in docs <==> d in HiddenDocs(Contents()) && d.name !in todo
        decreases todo
      {
        var name :| name in todo;
        todo := todo - {name};
        if !tools[name].isCore {
          docs := docs + [Doc(name, tools[name].tool.description)];
        }
      }
    }

    method Get(name: string) returns (found: bool)
      ensures found == Visible(Contents(), name)
    {
      if name !in tools {
        return false;
      }
      if !tools[name].isCore && tools[name].ttl <= 0 {
        return false;
      }
      return true;
    }

    /** The names listed to the provider; `sorted` is the sorted list of all names. */
    method ToProviderDefs(sorted: seq<string>) returns (listed: seq<string>)
      requires forall name :: name in sorted <==> name in tools
      ensures forall name :: name in listed <==> Visible(Contents(), name)
    {
      listed := [];
      for i := 0 to |sorted|
        invariant forall name :: name in listed <==> name in sorted[..i] && Visible(Contents(), name)
      {
        assert sorted[..i + 1] == sorted[..i] + [sorted[i]];
        assert sorted[i] in sorted;
        var entry := tools[sorted[i]];
        if !entry.isCore && entry.ttl <= 0 {
          continue;
        }
        listed := listed + [sorted[i]];
      }
      assert sorted[..|sorted|] == sorted;
    }
  }

  // ---------- Unlocking for a time ----------

  datatype Event =
    | RegisterEvent(tool: Tool, isCore: bool)
    | PromoteEvent(names: seq<string>, ttl: int)
    | TickEvent

  function After(r: Registry, e: Event): Registry {
    match e
    case RegisterEvent(tool, isCore) => Registered(r, tool, isCore)
    case PromoteEvent(names, ttl) => Promoted(r, names, ttl)
    case TickEvent => Ticked(r)
  }

  function Run(r: Registry, events: seq<Event>): Registry {
    if events == [] then r else After(Run(r, events[..|events| - 1]), events[|events| - 1])
  }

  function Ticks(events: seq<Event>): nat {
    if events == [] then 0
    else Ticks(events[..|events| - 1]) + if events[|events| - 1].TickEvent? then 1 else 0
  }

  /** The event neither registers nor promotes the tool. */
  predicate LeavesAlone(e: Event, name: string) {
    match e
    case RegisterEvent(tool, _) => tool.name != name
    case PromoteEvent(names, _) => name !in names
    case TickEvent => true
  }

  /**
    A hidden tool that is promoted for t ticks is visible, and so listed and callable, exactly
    until the t-th tick, whatever else happens to other tools.
   */
  lemma {:induction false} PromotionLasts(r: Registry, names: seq<string>, ttl: int, name: string, events: seq<Event>)
    requires name in r.tools && !r.tools[name].isCore && name in names
    requires forall i :: 0 <= i < |events| ==> LeavesAlone(events[i], name)
    ensures var s := Run(Promoted(r, names, ttl), events);
            && name in s.tools && !s.tools[name].isCore
            && s.tools[name].ttl == (if ttl <= 0 then ttl else if ttl <= Ticks(events) then 0 else ttl - Ticks(events))
            && (Visible(s, name) <==> Ticks(events) < ttl)
    decreases |events|
  {
    if events != [] {
      var init, last := events[..|events| - 1], events[|events| - 1];
      PromotionLasts(r, names, ttl, name, init);
      assert LeavesAlone(last, name);
    }
  }

  // ---------- Hidden tools and versions ----------

  /** Only a registration changes what the search could see, and it makes a new version. */
  lemma SameVersionSameDocs(r: Registry, e: Event)
    ensures r.version <= After(r, e).version
    ensures After(r, e).version == r.version ==> HiddenDocs(After(r, e)) == HiddenDocs(r)
  {
    if !e.RegisterEvent? {
      var r' := After(r, e);
      assert r'.tools.Keys == r.tools.Keys;
      assert forall name :: name in r.tools ==>
        r'.tools[name].isCore == r.tools[name].isCore && r'.tools[name].tool == r.tools[name].tool;
      forall d ensures d in HiddenDocs(r') <==> d in HiddenDocs(r) {
        assert d in HiddenDocs(r') <==>
          d.name in r'.tools && !r'.tools[d.name].isCore && d.description == r'.tools[d.name].tool.description;
        assert d in HiddenDocs(r) <==>
          d.name in r.tools && !r.tools[d.name].isCore && d.description == r.tools[d.name].tool.description;
      }
    }
  }

  // ---------- What a registration decides ----------

  /**
    The last registration of a name decides, whatever else happens: its tool is there, a core
    tool is visible always, a hidden one never unless it is promoted, and the search sees a tool
    of that name exactly if it is hidden.
   */
  lemma {:induction false} RegistrationDecides(r: Registry, tool: Tool, isCore: bool, events: seq<Event>)
    requires forall i :: 0 <= i < |events| && events[i].RegisterEvent? ==> events[i].tool.name != tool.name
    ensures var s := Run(Registered(r, tool, isCore), events);
            && tool.name in s.tools && s.tools[tool.name].tool == tool && s.tools[tool.name].isCore == isCore
            && (isCore ==> Visible(s, tool.name))
            && (!isCore && (forall i :: 0 <= i < |events| && events[i].PromoteEvent? ==> tool.name !in events[i].names) ==>
                  !Visible(s, tool.name))
            && (forall d: Doc :: d.name == tool.name ==>
                  (d in HiddenDocs(s) <==> !isCore && d.description == tool.description))
    decreases |events|
  {
    if events != [] {
      var init, last := events[..|events| - 1], events[|events| - 1];
      RegistrationDecides(r, tool, isCore, init);
      hide HiddenDocs;
      var s := After(Run(Registered(r, tool, isCore), init), last);
      DocOf(s, tool.name);
    } else {
      DocOf(Registered(r, tool, isCore), tool.name);
    }
  }

  lemma DocOf(r: Registry, name: string)
    requires name in r.tools
    ensures forall d: Doc :: d.name == name ==>
              (d in HiddenDocs(r) <==> !r.tools[name].isCore && d.description == r.tools[name].tool.description)
  {
    forall d: Doc | d.name == name
      ensures d in HiddenDocs(r) <==> !r.tools[name].isCore && d.description == r.tools[name].tool.description
    {
      if d in HiddenDocs(r) {
        var n :| n in r.tools && !r.tools[n].isCore && d == Doc(n, r.tools[n].tool.description);
        assert n == name;
      }
    }
  }
}
