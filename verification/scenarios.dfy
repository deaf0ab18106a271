/**
 * Worked examples over the config assembled from `{"manufacturing": True}`:
 * one system above and at the threshold, two systems ranked, and the
 * appended disabled activities that leave no trace.
 */
module Scenarios {
  import opened Results
  import opened Universe
  import opened Activities
  import opened Ranking
  import opened Aggregation
  import opened Report
  import opened Text

  const Jita := SolarSystem(30000142, "Jita")
  const Amarr := SolarSystem(30002187, "Amarr")

  /** The user's `enabled_indices` dict `{"manufacturing": True}`. */
  const ManufacturingUser: seq<(string, bool)> := [("manufacturing", true)]

  const ManufacturingSlot := Slot("manufacturing", Activity(true, "Manufacturing"))

  /** The five recognised activities the dict leaves out, disabled, in declaration order. */
  const AppendedSlots: Config := [
    Slot("reaction", Activity(false, "Reaction")),
    Slot("researching_material_efficiency", Activity(false, "ME Research")),
    Slot("researching_time_efficiency", Activity(false, "TE Research")),
    Slot("invention", Activity(false, "Invention")),
    Slot("copying", Activity(false, "Copying"))
  ]

  /** The six-slot config the dict becomes (see `ManufacturingAssembled`). */
  const ManufacturingOnly: Config := [ManufacturingSlot] + AppendedSlots

  /**
   * The assembly rewrites the one user key in place and appends the other
   * five recognised activities, disabled, in declaration order.
   */
  lemma ManufacturingAssembled()
    ensures AssembleConfig(Some(ManufacturingUser)) == ManufacturingOnly
  {
    var u := ManufacturingUser;
    assert AssembleConfig(Some(u)) == ConvertAll(Display, u) + Missing(Display, u);
    assert ConvertAll(Display, u) == [ManufacturingSlot] by {
      assert Display[0].0 == "manufacturing";
      assert Convert(Display, u[0]) == ManufacturingSlot;
    }
    MissingManufacturing();
  }

  lemma MissingManufacturing()
    ensures Missing(Display, ManufacturingUser) == AppendedSlots
  {
    var u := ManufacturingUser;
    assert Firsts(u) == ["manufacturing"] by {
      assert |Firsts(u)| == 1;
    }
    MissingLate();
    assert Missing(Display[2..], u) == [AppendedSlots[1]] + Missing(Display[3..], u) by {
      assert Display[2..][0] == ("researching_material_efficiency", "ME Research") && Display[2..][1..] == Display[3..];
      MissingHead(Display[2..], u);
    }
    assert Missing(Display[1..], u) == [AppendedSlots[0]] + Missing(Display[2..], u) by {
      assert Display[1..][0] == ("reaction", "Reaction") && Display[1..][1..] == Display[2..];
      MissingHead(Display[1..], u);
    }
    assert Missing(Display, u) == Missing(Display[1..], u) by {
      assert Display[0].0 == "manufacturing";
      MissingHead(Display, u);
    }
    Unfold5(AppendedSlots);
  }

  /** The last three recognised activities are all appended. */
  lemma MissingLate()
    ensures Missing(Display[3..], ManufacturingUser)
            == [AppendedSlots[2]] + ([AppendedSlots[3]] + ([AppendedSlots[4]] + []))
  {
    var u := ManufacturingUser;
    assert Firsts(u) == ["manufacturing"] by {
      assert |Firsts(u)| == 1;
    }
    assert Missing(Display[6..], u) == [];
    assert Missing(Display[5..], u) == [AppendedSlots[4]] + Missing(Display[6..], u) by {
      assert Display[5..][0] == ("copying", "Copying") && Display[5..][1..] == Display[6..];
      MissingHead(Display[5..], u);
    }
    assert Missing(Display[4..], u) == [AppendedSlots[3]] + Missing(Display[5..], u) by {
      assert Display[4..][0] == ("invention", "Invention") && Display[4..][1..] == Display[5..];
      MissingHead(Display[4..], u);
    }
    assert Missing(Display[3..], u) == [AppendedSlots[2]] + Missing(Display[4..], u) by {
      assert Display[3..][0] == ("researching_time_efficiency", "TE Research") && Display[3..][1..] == Display[4..];
      MissingHead(Display[3..], u);
    }
  }

  lemma Unfold5<T>(s: seq<T>)
    requires |s| == 5
    ensures [s[0]] + ([s[1]] + ([s[2]] + ([s[3]] + ([s[4]] + [])))) == s
  {
  }

  lemma MissingHead(display: seq<(string, string)>, user: seq<(string, bool)>)
    requires display != []
    ensures Missing(display, user)
            == (if display[0].0 in Firsts(user) then [] else [Slot(display[0].0, Activity(false, display[0].1))])
               + Missing(display[1..], user)
  {
  }

  /** Every slot after the first is a disabled activity. */
  predicate DisabledAfterFirst(cfg: Config) {
    forall i :: 0 < i < |cfg| ==> cfg[i].setting.Activity? && !cfg[i].setting.enabled
  }

  function Manufacturing(systemId: int, costIndex: real): SystemIndices {
    SystemIndices(systemId, [ActivityIndex("manufacturing", costIndex)])
  }

  /** Jita at 15% against a 10% threshold is listed, and its line is laid out in columns. */
  lemma JitaListed(fmt: real -> string)
    requires fmt(0.15) == "15.00%"
    ensures var lists := Aggregate([Manufacturing(Jita.id, 0.15)], [Jita], ManufacturingOnly, 0.10);
            && lists["manufacturing"] == [Metric("Jita", 0.15)]
            && BuildOutput(lists, ManufacturingOnly, fmt)
               == Success("\n" + Header("Manufacturing") + "Jita      15.00%\n" + "```")
  {
    var index := [Manufacturing(Jita.id, 0.15)];
    AggregateManufacturing(index, [Jita], 0.10);
    CollectedOne(Jita, 0.15, 0.10);
    RankSingle(Metric("Jita", 0.15));
    JitaReport(Aggregate(index, [Jita], ManufacturingOnly, 0.10), fmt);
  }

  lemma JitaReport(lists: map<string, seq<Metric>>, fmt: real -> string)
    requires fmt(0.15) == "15.00%"
    requires "manufacturing" in lists && lists["manufacturing"] == [Metric("Jita", 0.15)]
    ensures BuildOutput(lists, ManufacturingOnly, fmt)
            == Success("\n" + Header("Manufacturing") + "Jita      15.00%\n" + "```")
  {
    JitaLine(fmt);
    OneSection(lists, fmt);
    var lead, line, fence := "\n" + Header("Manufacturing"), "Jita      15.00%\n", "```";
    assert Closing([Metric("Jita", 0.15)], fmt) == line + fence;
    assert lead + (line + fence) == lead + line + fence;
  }

  lemma JitaLine(fmt: real -> string)
    requires fmt(0.15) == "15.00%"
    ensures Lines([Metric("Jita", 0.15)], fmt) == "Jita      15.00%\n"
  {
    var jita := Metric("Jita", 0.15);
    assert PadRight("Jita", NameWidth) == "Jita   " by {
      assert Spaces(3) == "   ";
    }
    assert PadLeft("15.00%", IndexWidth) == "  15.00%" by {
      assert Spaces(2) == "  ";
    }
    assert Line(jita, fmt) == "Jita      15.00%\n";
    assert [jita][1..] == [];
  }

  /** The same system exactly at the threshold is left out, and the section says so. */
  lemma AtThresholdExcluded(fmt: real -> string)
    ensures var lists := Aggregate([Manufacturing(Jita.id, 0.10)], [Jita], ManufacturingOnly, 0.10);
            && lists["manufacturing"] == []
            && BuildOutput(lists, ManufacturingOnly, fmt)
               == Success("\n" + Header("Manufacturing") + "Nothing to report.")
  {
    var index := [Manufacturing(Jita.id, 0.10)];
    AggregateManufacturing(index, [Jita], 0.10);
    CollectedOne(Jita, 0.10, 0.10);
    EmptyReport(Aggregate(index, [Jita], ManufacturingOnly, 0.10), fmt);
  }

  lemma EmptyReport(lists: map<string, seq<Metric>>, fmt: real -> string)
    requires "manufacturing" in lists && lists["manufacturing"] == []
    ensures BuildOutput(lists, ManufacturingOnly, fmt)
            == Success("\n" + Header("Manufacturing") + "Nothing to report.")
  {
    OneSection(lists, fmt);
  }

  /** Amarr at 30% is ranked ahead of Jita at 20%, although Jita was collected first. */
  lemma AmarrFirst()
    ensures var lists := Aggregate([Manufacturing(Jita.id, 0.20), Manufacturing(Amarr.id, 0.30)],
                                   [Jita, Amarr], ManufacturingOnly, 0.10);
            lists["manufacturing"] == [Metric("Amarr", 0.30), Metric("Jita", 0.20)]
  {
    var index := [Manufacturing(Jita.id, 0.20), Manufacturing(Amarr.id, 0.30)];
    var a, j := Metric("Amarr", 0.30), Metric("Jita", 0.20);
    AggregateManufacturing(index, [Jita, Amarr], 0.10);
    CollectedTwo(Jita, Amarr, 0.20, 0.30, 0.10);
    RankPair(j, a);
  }

  /** The manufacturing list of the assembled config is the ranked collection for that key. */
  lemma AggregateManufacturing(index: seq<SystemIndices>, systems: seq<SolarSystem>, threshold: real)
    ensures "manufacturing" in Aggregate(index, systems, ManufacturingOnly, threshold)
    ensures Aggregate(index, systems, ManufacturingOnly, threshold)["manufacturing"]
            == Rank(Collected(index, systems, "manufacturing", threshold))
  {
    assert Keys(ManufacturingOnly)[..1] == ["manufacturing"];
    assert Keys(ManufacturingOnly)[0] == "manufacturing";
  }

  /** Two tracked systems with distinct ids, each with one record above the threshold, in record order. */
  lemma CollectedTwo(s1: SolarSystem, s2: SolarSystem, v1: real, v2: real, threshold: real)
    requires s1.id != s2.id && v1 > threshold && v2 > threshold
    ensures Collected([Manufacturing(s1.id, v1), Manufacturing(s2.id, v2)], [s1, s2], "manufacturing", threshold)
            == [Metric(s1.name, v1), Metric(s2.name, v2)]
  {
    var r1, r2 := Manufacturing(s1.id, v1), Manufacturing(s2.id, v2);
    var m1, m2 := Metric(s1.name, v1), Metric(s2.name, v2);
    assert FromRecord(r2, [s1, s2], "manufacturing", threshold) == [m2] by {
      assert [s1, s2][1..] == [s2];
      assert [s2][1..] == [];
      FirstCostOne(v2);
      assert Appended(r2, s1, "manufacturing", threshold) == [];
      assert Appended(r2, s2, "manufacturing", threshold) == [m2];
      assert FromRecord(r2, [s2], "manufacturing", threshold) == [m2] + FromRecord(r2, [], "manufacturing", threshold);
    }
    assert FromRecord(r1, [s1, s2], "manufacturing", threshold) == [m1] by {
      assert [s1, s2][1..] == [s2];
      assert [s2][1..] == [];
      FirstCostOne(v1);
      assert Appended(r1, s1, "manufacturing", threshold) == [m1];
      assert Appended(r1, s2, "manufacturing", threshold) == [];
      assert FromRecord(r1, [s2], "manufacturing", threshold) == [] + FromRecord(r1, [], "manufacturing", threshold);
    }
    var index := [r1, r2];
    assert index[1..] == [r2];
    assert index[1..][1..] == [];
    assert Collected([r2], [s1, s2], "manufacturing", threshold)
           == [m2] + Collected([], [s1, s2], "manufacturing", threshold);
  }

  /**
   * The five disabled slots the assembly appends leave no trace in the
   * text: a disabled activity gets no section, not even an empty one.
   */
  lemma AppendedSlotsInvisible(lists: map<string, seq<Metric>>, fmt: real -> string)
    ensures BuildOutput(lists, ManufacturingOnly, fmt) == BuildOutput(lists, [ManufacturingSlot], fmt)
  {
    var cfg := ManufacturingOnly;
    assert cfg != [] && cfg[0] == ManufacturingSlot && DisabledAfterFirst(cfg);
    assert DisabledAfterFirst([ManufacturingSlot]);
    if "manufacturing" in lists {
      FirstOnlySection(lists, cfg, fmt);
      FirstOnlySection(lists, [ManufacturingSlot], fmt);
    } else {
      assert Emit(cfg, lists, Renderer(fmt), true) == Failure(MissingList("manufacturing"));
      assert Emit([ManufacturingSlot], lists, Renderer(fmt), true) == Failure(MissingList("manufacturing"));
    }
  }

  /** One index record for a tracked system yields its pair exactly when it is above the threshold. */
  lemma CollectedOne(sys: SolarSystem, v: real, threshold: real)
    ensures Collected([Manufacturing(sys.id, v)], [sys], "manufacturing", threshold)
            == if v > threshold then [Metric(sys.name, v)] else []
  {
    var rec := Manufacturing(sys.id, v);
    var here := if v > threshold then [Metric(sys.name, v)] else [];
    FirstCostOne(v);
    assert Appended(rec, sys, "manufacturing", threshold) == here;
    assert FromRecord(rec, [sys], "manufacturing", threshold) == here by {
      assert [sys][1..] == [];
      assert FromRecord(rec, [sys], "manufacturing", threshold)
             == here + FromRecord(rec, [], "manufacturing", threshold);
    }
    assert [rec][1..] == [];
    assert Collected([rec], [sys], "manufacturing", threshold)
           == here + Collected([], [sys], "manufacturing", threshold);
  }

  lemma FirstCostOne(v: real)
    ensures FirstCost([ActivityIndex("manufacturing", v)], "manufacturing") == Some(v)
  {
    var ci := [ActivityIndex("manufacturing", v)];
    assert IsActivity("manufacturing", ci[0]);
  }

  /** A single pair ranks as itself. */
  lemma RankSingle(m: Metric)
    ensures Rank([m]) == [m]
  {
    var r := Rank([m]);
    assert |r| == |multiset(r)| == 1;
    assert r[0] in multiset(r);
  }

  /** Two pairs with different indices rank larger first. */
  lemma RankPair(lo: Metric, hi: Metric)
    requires lo.costIndex < hi.costIndex
    ensures Rank([lo, hi]) == [hi, lo]
    ensures Rank([hi, lo]) == [hi, lo]
  {
    RankPairOf([lo, hi], lo, hi);
    RankPairOf([hi, lo], lo, hi);
  }

  lemma RankPairOf(s: seq<Metric>, lo: Metric, hi: Metric)
    requires lo.costIndex < hi.costIndex
    requires multiset(s) == multiset{lo, hi}
    ensures Rank(s) == [hi, lo]
  {
    PairOrder(Rank(s), lo, hi);
  }

  /** The only non-increasing arrangement of two pairs puts the larger first. */
  lemma PairOrder(r: seq<Metric>, lo: Metric, hi: Metric)
    requires lo.costIndex < hi.costIndex
    requires NonIncreasing(r) && multiset(r) == multiset{lo, hi}
    ensures r == [hi, lo]
  {
    assert |r| == 2 by {
      assert |multiset(r)| == 2;
    }
    var x, y := r[0], r[1];
    assert r == [x, y];
    assert multiset{x, y} == multiset{lo, hi};
    assert x.costIndex >= y.costIndex;
    assert multiset{x, y}[hi] == 1 && multiset{x, y}[lo] == 1;
    assert x == hi;
    assert y == lo by {
      assert multiset{x, y}[lo] == 1;
    }
  }

  /** The text for the assembled config, whose one enabled activity is manufacturing. */
  lemma OneSection(lists: map<string, seq<Metric>>, fmt: real -> string)
    requires "manufacturing" in lists
    ensures BuildOutput(lists, ManufacturingOnly, fmt)
            == Success("\n" + Header("Manufacturing") + Closing(lists["manufacturing"], fmt))
  {
    var cfg := ManufacturingOnly;
    assert cfg != [] && cfg[0] == ManufacturingSlot && DisabledAfterFirst(cfg);
    FirstOnlySection(lists, cfg, fmt);
  }

  /** A config whose first slot is manufacturing, enabled, and whose other slots are disabled. */
  lemma FirstOnlySection(lists: map<string, seq<Metric>>, cfg: Config, fmt: real -> string)
    requires cfg != [] && cfg[0] == ManufacturingSlot && DisabledAfterFirst(cfg)
    requires "manufacturing" in lists
    ensures BuildOutput(lists, cfg, fmt)
            == Success("\n" + Header("Manufacturing") + Closing(lists["manufacturing"], fmt))
  {
    var plan := [("Manufacturing", lists["manufacturing"])];
    assert Renderable(cfg[1..], lists) && Planned(cfg[1..], lists) == [] by {
      forall i | 0 <= i < |cfg[1..]|
        ensures cfg[1..][i].setting.Activity? && !cfg[1..][i].setting.enabled
      {
        assert cfg[1..][i] == cfg[i + 1];
      }
      AllDisabled(cfg[1..], lists);
    }
    assert Renderable(cfg, lists) by {
      RenderableCons(cfg, lists);
    }
    assert Planned(cfg, lists) == plan;
    BuildOutputShape(lists, cfg, fmt);
    assert plan[..0] == [];
    assert Sections([], Renderer(fmt)) == "";
    assert "\n" + "" == "\n";
  }

  /** Disabled slots are renderable and plan no section. */
  lemma {:induction false} AllDisabled(cfg: Config, lists: map<string, seq<Metric>>)
    requires forall i :: 0 <= i < |cfg| ==> cfg[i].setting.Activity? && !cfg[i].setting.enabled
    ensures Renderable(cfg, lists) && Planned(cfg, lists) == []
  {
    if cfg != [] {
      forall i | 0 <= i < |cfg[1..]|
        ensures cfg[1..][i].setting.Activity? && !cfg[1..][i].setting.enabled
      {
        assert cfg[1..][i] == cfg[i + 1];
      }
      AllDisabled(cfg[1..], lists);
      RenderableCons(cfg, lists);
    }
  }
}
