/**
 * `buildOutputString`: one fenced section per enabled activity, in the
 * config's key order, with the whole text right-stripped at the end.
 */
module Report {
  import opened Results
  import opened Activities
  import opened Ranking
  import opened Text
  import opened Seqs

  /**
   * The two ways the loop raises: a config value that is still the user's
   * bare flag is indexed with `['enabled']`, or an enabled key has no list.
   */
  datatype ReportError = NotAnActivity(key: string) | MissingList(key: string)

  /** Minimum width of the system-name column. */
  const NameWidth: nat := 7
  /** Minimum width of the right-aligned cost-index column. */
  const IndexWidth: nat := 8

  /** `'{0:7} {1:>8}'.format(name, fmt(index)) + "\n"`. */
  function Line(m: Metric, fmt: real -> string): string {
    PadRight(m.systemName, NameWidth) + " " + PadLeft(fmt(m.costIndex), IndexWidth) + "\n"
  }

  /**
   * The columns of one line: the name, spaces up to column 7, one space,
   * spaces and then the formatted index ending 8 columns later (or later
   * when wider), and the newline.
   */
  lemma LineLayout(m: Metric, fmt: real -> string)
    ensures var l, n, f := Line(m, fmt), m.systemName, fmt(m.costIndex);
            var w := Max(|n|, NameWidth);
            && |l| == w + 1 + Max(|f|, IndexWidth) + 1
            && l[..|n|] == n
            && (forall i :: |n| <= i <= w ==> l[i] == ' ')
            && (forall i :: w < i < |l| - 1 - |f| ==> l[i] == ' ')
            && l[|l| - 1 - |f|..|l| - 1] == f
            && l[|l| - 1] == '\n'
  {
    var n, f := m.systemName, fmt(m.costIndex);
    var a, b := PadRight(n, NameWidth), PadLeft(f, IndexWidth);
    assert Line(m, fmt) == a + " " + b + "\n";
    assert |a| == Max(|n|, NameWidth) && |b| == Max(|f|, IndexWidth);
    Layout(n, f, a, b);
  }

  /** A left-aligned field, a space, a right-aligned field and a newline, in place. */
  lemma Layout(n: string, f: string, a: string, b: string)
    requires |n| <= |a| && a[..|n|] == n && forall i :: |n| <= i < |a| ==> a[i] == ' '
    requires |f| <= |b| && b[|b| - |f|..] == f && forall i :: 0 <= i < |b| - |f| ==> b[i] == ' '
    ensures var l := a + " " + b + "\n";
            && |l| == |a| + |b| + 2
            && l[..|n|] == n
            && (forall i :: |n| <= i <= |a| ==> l[i] == ' ')
            && (forall i :: |a| < i < |l| - 1 - |f| ==> l[i] == ' ')
            && l[|l| - 1 - |f|..|l| - 1] == f
            && l[|l| - 1] == '\n'
  {
    var l := a + " " + b + "\n";
    assert |l| == |a| + |b| + 2;
    assert l[..|n|] == n by {
      forall i | 0 <= i < |n|
        ensures l[i] == n[i]
      {
        assert l[i] == a[i] && a[i] == a[..|n|][i];
      }
    }
    assert forall i :: |n| <= i <= |a| ==> l[i] == ' ' by {
      forall i | |n| <= i <= |a|
        ensures l[i] == ' '
      {
        if i < |a| {
          assert l[i] == a[i];
        }
      }
    }
    assert forall i :: |a| < i < |l| - 1 - |f| ==> l[i] == ' ' by {
      forall i | |a| < i < |l| - 1 - |f|
        ensures l[i] == ' '
      {
        assert l[i] == b[i - |a| - 1];
      }
    }
    assert l[|l| - 1 - |f|..|l| - 1] == f by {
      forall i | 0 <= i < |f|
        ensures l[|l| - 1 - |f| + i] == f[i]
      {
        assert l[|l| - 1 - |f| + i] == b[|b| - |f| + i];
        assert f[i] == b[|b| - |f|..][i];
      }
    }
  }

  function Lines(ms: seq<Metric>, fmt: real -> string): string {
    if ms == [] then "" else Line(ms[0], fmt) + Lines(ms[1..], fmt)
  }

  function Header(name: string): string {
    name + " Cost Index Report:\n\n```\n"
  }

  /** An empty list prints the placeholder and leaves the fence open. */
  function Body(ms: seq<Metric>, fmt: real -> string): string {
    if ms == [] then "Nothing to report.\n" else Lines(ms, fmt) + "```\n\n"
  }

  function Section(name: string, ms: seq<Metric>, fmt: real -> string): string {
    Header(name) + Body(ms, fmt)
  }

  /** Renders one section from its title and its ranked list. */
  type Render = (string, seq<Metric>) -> string

  /**
   * The loop of `buildOutputString`; `first` is still set until a section
   * is emitted. The section renderer is a parameter so that the loop's
   * structure can be reasoned about apart from the text of one section.
   */
  function Emit(cfg: Config, lists: map<string, seq<Metric>>, section: Render, first: bool)
    : Result<string, ReportError>
  {
    if cfg == [] then Success("")
    else
      match cfg[0].setting
      case Unconverted(_) => Failure(NotAnActivity(cfg[0].key))
      case Activity(enabled, name) =>
        if !enabled then Emit(cfg[1..], lists, section, first)
        else if cfg[0].key !in lists then Failure(MissingList(cfg[0].key))
        else
          var rest :- Emit(cfg[1..], lists, section, false);
          Success((if first then "\n" else "") + section(name, lists[cfg[0].key]) + rest)
  }

  /** The section renderer `buildOutputString` uses, with the given index formatter. */
  function Renderer(fmt: real -> string): Render {
    (name, ms) => Section(name, ms, fmt)
  }

  /** `buildOutputString(indices_list, config)`. */
  function BuildOutput(lists: map<string, seq<Metric>>, cfg: Config, fmt: real -> string)
    : (r: Result<string, ReportError>)
    ensures r.Success? ==> Trimmed(r.value)
  {
    var body :- Emit(cfg, lists, Renderer(fmt), true);
    Success(RStrip(body))
  }

  /** Every value is a converted activity and every enabled key has a list. */
  predicate Renderable(cfg: Config, lists: map<string, seq<Metric>>) {
    forall i :: 0 <= i < |cfg| ==>
      cfg[i].setting.Activity? && (cfg[i].setting.enabled ==> cfg[i].key in lists)
  }

  lemma RenderableCons(cfg: Config, lists: map<string, seq<Metric>>)
    requires cfg != []
    ensures Renderable(cfg, lists) <==>
              && cfg[0].setting.Activity? && (cfg[0].setting.enabled ==> cfg[0].key in lists)
              && Renderable(cfg[1..], lists)
  {
    if cfg[0].setting.Activity? && (cfg[0].setting.enabled ==> cfg[0].key in lists) && Renderable(cfg[1..], lists) {
      forall i | 0 <= i < |cfg|
        ensures cfg[i].setting.Activity? && (cfg[i].setting.enabled ==> cfg[i].key in lists)
      {
        if i > 0 {
          assert cfg[i] == cfg[1..][i - 1];
        }
      }
    }
  }

  /** The enabled activity slots, in config order. */
  function Enabled(cfg: Config): (r: Config)
    ensures forall s :: s in r <==> s in cfg && s.setting.Activity? && s.setting.enabled
  {
    if cfg == [] then []
    else (if cfg[0].setting.Activity? && cfg[0].setting.enabled then [cfg[0]] else []) + Enabled(cfg[1..])
  }

  /** The title and the ranked list of every enabled activity that has a list, in config order. */
  function Planned(cfg: Config, lists: map<string, seq<Metric>>): seq<(string, seq<Metric>)> {
    if cfg == [] then []
    else
      var s := cfg[0];
      (if s.setting.Activity? && s.setting.enabled && s.key in lists
       then [(s.setting.displayName, lists[s.key])] else [])
      + Planned(cfg[1..], lists)
  }

  /** On renderable input the plan lists exactly the enabled slots, each with its own list. */
  lemma {:induction false} PlannedEnabled(cfg: Config, lists: map<string, seq<Metric>>)
    requires Renderable(cfg, lists)
    ensures |Planned(cfg, lists)| == |Enabled(cfg)|
    ensures forall i :: 0 <= i < |Enabled(cfg)| ==>
              Enabled(cfg)[i].key in lists &&
              Planned(cfg, lists)[i] == (Enabled(cfg)[i].setting.displayName, lists[Enabled(cfg)[i].key])
  {
    if cfg != [] {
      var s, plan, enabled := cfg[0], Planned(cfg, lists), Enabled(cfg);
      var plan', enabled' := Planned(cfg[1..], lists), Enabled(cfg[1..]);
      RenderableCons(cfg, lists);
      PlannedEnabled(cfg[1..], lists);
      if s.setting.enabled {
        assert plan == [(s.setting.displayName, lists[s.key])] + plan';
        assert enabled == [s] + enabled';
        forall i | 0 < i < |enabled|
          ensures plan[i] == plan'[i - 1] && enabled[i] == enabled'[i - 1]
        {
        }
      } else {
        assert plan == plan' && enabled == enabled';
      }
    }
  }

  /** The sections of the planned activities, one after the other. */
  function Sections(plan: seq<(string, seq<Metric>)>, section: Render): string {
    if plan == [] then "" else section(plan[0].0, plan[0].1) + Sections(plan[1..], section)
  }

  /** The loop succeeds exactly on renderable input. */
  lemma {:induction false} EmitSucceeds(cfg: Config, lists: map<string, seq<Metric>>, section: Render, first: bool)
    ensures Emit(cfg, lists, section, first).Success? <==> Renderable(cfg, lists)
  {
    if cfg != [] {
      RenderableCons(cfg, lists);
      EmitSucceeds(cfg[1..], lists, section, first);
      EmitSucceeds(cfg[1..], lists, section, false);
    }
  }

  /**
   * The loop succeeds exactly on renderable input, and then produces the
   * planned sections in config order, with a single newline ahead of the
   * first one.
   */
  lemma {:induction false} EmitSpec(cfg: Config, lists: map<string, seq<Metric>>, section: Render, first: bool)
    ensures Emit(cfg, lists, section, first).Success? <==> Renderable(cfg, lists)
    ensures Renderable(cfg, lists) ==>
              var plan := Planned(cfg, lists);
              Emit(cfg, lists, section, first).value ==
                (if first && plan != [] then "\n" else "") + Sections(plan, section)
  {
    EmitSucceeds(cfg, lists, section, first);
    if cfg != [] && Renderable(cfg, lists) {
      RenderableCons(cfg, lists);
      EmitSucceeds(cfg[1..], lists, section, false);
      if cfg[0].setting.enabled {
        EmitSpec(cfg[1..], lists, section, false);
        EmitEnabledStep(cfg, lists, section, first);
      } else {
        EmitSpec(cfg[1..], lists, section, first);
        assert Emit(cfg, lists, section, first) == Emit(cfg[1..], lists, section, first);
        assert Planned(cfg, lists) == Planned(cfg[1..], lists);
      }
    }
  }

  /** An enabled first slot puts its section ahead of the rest of the loop's text. */
  lemma EmitEnabledStep(cfg: Config, lists: map<string, seq<Metric>>, section: Render, first: bool)
    requires cfg != [] && cfg[0].setting.Activity? && cfg[0].setting.enabled && cfg[0].key in lists
    requires Emit(cfg[1..], lists, section, false).Success?
    requires Emit(cfg[1..], lists, section, false).value == Sections(Planned(cfg[1..], lists), section)
    ensures Planned(cfg, lists) != []
    ensures Emit(cfg, lists, section, first).value ==
              (if first then "\n" else "") + Sections(Planned(cfg, lists), section)
  {
    var s := cfg[0];
    var plan := Planned(cfg, lists);
    var rest := Emit(cfg[1..], lists, section, false).value;
    var sec := section(s.setting.displayName, lists[s.key]);
    var lead := if first then "\n" else "";
    assert plan == [(s.setting.displayName, lists[s.key])] + Planned(cfg[1..], lists);
    assert Sections(plan, section) == sec + Sections(plan[1..], section);
    assert plan[1..] == Planned(cfg[1..], lists);
    assert Emit(cfg, lists, section, first) == Success(lead + sec + rest);
    ConcatAssoc(lead, sec, rest);
  }

  /** The placeholder or the closing fence, without the newlines the final strip removes. */
  function Closing(ms: seq<Metric>, fmt: real -> string): string {
    if ms == [] then "Nothing to report." else Lines(ms, fmt) + "```"
  }

  /**
   * The final text: empty when no activity is enabled; otherwise a newline,
   * every planned section but the last in full, and the last section with
   * its trailing newlines stripped.
   */
  lemma BuildOutputShape(lists: map<string, seq<Metric>>, cfg: Config, fmt: real -> string)
    requires Renderable(cfg, lists)
    ensures BuildOutput(lists, cfg, fmt).Success?
    ensures Planned(cfg, lists) == [] ==> BuildOutput(lists, cfg, fmt).value == ""
    ensures Planned(cfg, lists) != [] ==>
              var plan := Planned(cfg, lists);
              var last := plan[|plan| - 1];
              BuildOutput(lists, cfg, fmt).value ==
                "\n" + Sections(plan[..|plan| - 1], Renderer(fmt)) + Header(last.0) + Closing(last.1, fmt)
  {
    var plan := Planned(cfg, lists);
    var body := Emit(cfg, lists, Renderer(fmt), true);
    assert body.Success? && body.value == (if plan != [] then "\n" else "") + Sections(plan, Renderer(fmt)) by {
      EmitSpec(cfg, lists, Renderer(fmt), true);
    }
    assert BuildOutput(lists, cfg, fmt) == Success(RStrip(body.value));
    if plan == [] {
      assert body.value == "";
    } else {
      StrippedSections(plan, fmt);
    }
  }

  /** Stripping the newline and the planned sections strips only the last section's body. */
  lemma StrippedSections(plan: seq<(string, seq<Metric>)>, fmt: real -> string)
    requires plan != []
    ensures var last := plan[|plan| - 1];
            RStrip("\n" + Sections(plan, Renderer(fmt)))
            == "\n" + Sections(plan[..|plan| - 1], Renderer(fmt)) + Header(last.0) + Closing(last.1, fmt)
  {
    var last := plan[|plan| - 1];
    var init := Sections(plan[..|plan| - 1], Renderer(fmt));
    var h := Header(last.0);
    assert Sections(plan, Renderer(fmt)) == init + (h + Body(last.1, fmt)) by {
      SectionsSnoc(plan, Renderer(fmt));
    }
    StripTail("\n", init, h, last.1, fmt);
  }

  lemma StripTail(w: string, init: string, h: string, ms: seq<Metric>, fmt: real -> string)
    ensures RStrip(w + (init + (h + Body(ms, fmt)))) == w + init + h + Closing(ms, fmt)
  {
    ConcatRegroup(w, init, h, Body(ms, fmt));
    LastSectionStripped(w + init + h, ms, fmt);
  }

  /** Stripping a text that ends in a section body strips only that body's trailing newlines. */
  lemma LastSectionStripped(p: string, ms: seq<Metric>, fmt: real -> string)
    ensures RStrip(p + Body(ms, fmt)) == p + Closing(ms, fmt)
  {
    var q := Body(ms, fmt);
    if ms == [] {
      assert q[0] == 'N' && !IsWhitespace(q[0]);
      assert RStrip(q) == "Nothing to report." by {
        assert q[..|q| - 1] == "Nothing to report.";
        RStripKeeps("Nothing to report.");
      }
    } else {
      var fence := "```\n\n";
      assert q == Lines(ms, fmt) + fence;
      assert !IsWhitespace(q[|q| - 3]);
      assert !IsWhitespace(fence[0]);
      RStripAppend(Lines(ms, fmt), fence);
      assert RStrip(fence) == "```" by {
        assert fence[..4] == "```\n";
        assert fence[..4][..3] == "```";
        RStripKeeps("```");
      }
    }
    RStripAppend(p, q);
  }

  lemma {:induction false} SectionsSnoc(plan: seq<(string, seq<Metric>)>, section: Render)
    requires plan != []
    ensures var last := plan[|plan| - 1];
            Sections(plan, section) == Sections(plan[..|plan| - 1], section) + section(last.0, last.1)
  {
    var n := |plan|;
    var last := plan[n - 1];
    var tail := section(last.0, last.1);
    if n == 1 {
      assert plan[..0] == [];
      assert Sections(plan[1..], section) == "";
    } else {
      var head := section(plan[0].0, plan[0].1);
      var init := plan[..n - 1];
      assert plan[1..][|plan[1..]| - 1] == last;
      assert plan[1..][..n - 2] == init[1..];
      SectionsSnoc(plan[1..], section);
      var mid := Sections(init[1..], section);
      assert Sections(plan[1..], section) == mid + tail;
      assert init[0] == plan[0];
      assert Sections(init, section) == head + mid;
      assert Sections(plan, section) == head + (mid + tail);
      assert head + (mid + tail) == (head + mid) + tail;
    }
  }

  /** Dropping a disabled activity from the config does not change the loop's outcome. */
  lemma {:induction false} EmitSkip(cfg: Config, lists: map<string, seq<Metric>>, section: Render,
                                    first: bool, i: nat)
    requires i < |cfg| && cfg[i].setting.Activity? && !cfg[i].setting.enabled
    ensures Emit(cfg[..i] + cfg[i + 1..], lists, section, first) == Emit(cfg, lists, section, first)
  {
    var without := cfg[..i] + cfg[i + 1..];
    if i == 0 {
      assert without == cfg[1..];
    } else {
      assert without[0] == cfg[0];
      assert without[1..] == cfg[1..][..i - 1] + cfg[1..][i..];
      EmitSkip(cfg[1..], lists, section, first, i - 1);
      EmitSkip(cfg[1..], lists, section, false, i - 1);
    }
  }

  /** Dropping a disabled activity from the config does not change the report. */
  lemma DisabledInvisible(lists: map<string, seq<Metric>>, cfg: Config, fmt: real -> string, i: nat)
    requires i < |cfg| && cfg[i].setting.Activity? && !cfg[i].setting.enabled
    ensures BuildOutput(lists, cfg[..i] + cfg[i + 1..], fmt) == BuildOutput(lists, cfg, fmt)
  {
    EmitSkip(cfg, lists, Renderer(fmt), true, i);
  }
}
