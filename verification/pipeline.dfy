/**
 * `GetIndices` with its HTTP calls replaced by their answers: the
 * sovereignty records, the name resolution, the region and constellation
 * lookups and the industry index are inputs, and the text handed to the
 * webhooks is the result.
 */
module Pipeline {
  import opened Results
  import opened Seqs
  import opened Universe
  import opened Sovereignty
  import opened Regions
  import opened Activities
  import opened Ranking
  import opened Aggregation
  import opened Report
  import opened Text

  /** The exceptions the run can raise before any text is produced. */
  datatype RunError = Resolution(lookup: LookupError) | Rendering(render: ReportError)

  /**
   * One run: owned systems, resolved to names, kept to the configured
   * regions; the activity config; the ranked lists; the report text.
   * `resolveNames` stands for the `universe/names` call.
   */
  function Run(sov: seq<SovRecord>, alliances: set<int>, resolveNames: seq<int> -> seq<SolarSystem>,
               regions: seq<int>, constellationsOf: map<int, seq<int>>, systemsOf: map<int, seq<int>>,
               index: seq<SystemIndices>, enabledIndices: Option<seq<(string, bool)>>,
               threshold: real, fmt: real -> string): (r: Result<string, RunError>)
    requires enabledIndices.Some? ==> Distinct(Firsts(enabledIndices.value))
    ensures r.Success? ==> Trimmed(r.value)
  {
    var named := resolveNames(OwnedSystemIds(sov, alliances));
    match FilterByRegions(named, regions, constellationsOf, systemsOf)
    case Failure(e) => Failure(Resolution(e))
    case Success(tracked) =>
      match ReportFor(tracked, index, enabledIndices, threshold, fmt)
      case Failure(e) => Failure(Rendering(e))
      case Success(text) => Success(text)
  }

  /** The steps after the region filter: config, ranked lists, text. */
  function ReportFor(tracked: seq<SolarSystem>, index: seq<SystemIndices>,
                     enabledIndices: Option<seq<(string, bool)>>, threshold: real, fmt: real -> string)
    : (r: Result<string, ReportError>)
    requires enabledIndices.Some? ==> Distinct(Firsts(enabledIndices.value))
    ensures r.Success? ==> Trimmed(r.value)
  {
    var cfg := AssembleConfig(enabledIndices);
    BuildOutput(Aggregate(index, tracked, cfg, threshold), cfg, fmt)
  }

  /** Every user key is one of the six recognised activities. */
  predicate AllRecognised(enabledIndices: Option<seq<(string, bool)>>) {
    enabledIndices.Some? ==> forall k :: k in Firsts(enabledIndices.value) ==> k in CanonicalKeys()
  }

  /**
   * With a list for every configured key, the assembled config renders
   * exactly when the user named no key outside the six activities.
   */
  lemma ConfigRenderable(enabledIndices: Option<seq<(string, bool)>>, lists: map<string, seq<Metric>>)
    requires enabledIndices.Some? ==> Distinct(Firsts(enabledIndices.value))
    requires forall k :: k in Keys(AssembleConfig(enabledIndices)) ==> k in lists
    ensures Renderable(AssembleConfig(enabledIndices), lists) <==> AllRecognised(enabledIndices)
  {
    if enabledIndices.Some? {
      var user := enabledIndices.value;
      var cfg := AssembleConfig(enabledIndices);
      forall i | 0 <= i < |cfg|
        ensures cfg[i].setting.Activity? <==> Keys(cfg)[i] in CanonicalKeys()
      {
        SlotConverted(Display, user, cfg[i]);
      }
      RecognisedSlots(CanonicalKeys(), Firsts(user), cfg, Keys(cfg), lists);
    }
  }

  /** A slot built from a title table is converted exactly when its key has a title. */
  lemma SlotConverted(display: seq<(string, string)>, user: seq<(string, bool)>, s: Slot)
    requires SlotFor(display, user, s)
    ensures s.setting.Activity? <==> s.key in Firsts(display)
  {
  }

  /**
   * A config whose keys are the user's and the table's, converted exactly
   * where the key has a title, renders exactly when every user key has one.
   */
  lemma RecognisedSlots(titled: seq<string>, users: seq<string>, cfg: Config, ks: seq<string>,
                        lists: map<string, seq<Metric>>)
    requires |ks| == |cfg| && forall i :: 0 <= i < |cfg| ==> ks[i] == cfg[i].key
    requires forall i :: 0 <= i < |cfg| ==> (cfg[i].setting.Activity? <==> ks[i] in titled)
    requires forall k :: k in ks <==> k in users || k in titled
    requires forall k :: k in ks ==> k in lists
    ensures Renderable(cfg, lists) <==> forall k :: k in users ==> k in titled
  {
    if forall k :: k in users ==> k in titled {
      forall i | 0 <= i < |cfg|
        ensures cfg[i].setting.Activity? && (cfg[i].setting.enabled ==> cfg[i].key in lists)
      {
        assert ks[i] in ks;
      }
    }
    if Renderable(cfg, lists) {
      forall k | k in users
        ensures k in titled
      {
        var i :| 0 <= i < |ks| && ks[i] == k;
      }
    }
  }

  /**
   * The run fails only on an unknown region or constellation, or on a
   * user key outside the six activities; every configured key has a list,
   * so the report never misses one.
   */
  lemma RunSucceeds(sov: seq<SovRecord>, alliances: set<int>, resolveNames: seq<int> -> seq<SolarSystem>,
                    regions: seq<int>, constellationsOf: map<int, seq<int>>, systemsOf: map<int, seq<int>>,
                    index: seq<SystemIndices>, enabledIndices: Option<seq<(string, bool)>>,
                    threshold: real, fmt: real -> string)
    requires enabledIndices.Some? ==> Distinct(Firsts(enabledIndices.value))
    ensures var r := Run(sov, alliances, resolveNames, regions, constellationsOf, systemsOf,
                         index, enabledIndices, threshold, fmt);
            && (r.Success? <==> Resolvable(regions, constellationsOf, systemsOf) && AllRecognised(enabledIndices))
            && (r.Failure? && r.error.Resolution? <==> !Resolvable(regions, constellationsOf, systemsOf))
            && (r.Failure? ==> !(r.error.Rendering? && r.error.render.MissingList?))
  {
    var named := resolveNames(OwnedSystemIds(sov, alliances));
    var filtered := FilterByRegions(named, regions, constellationsOf, systemsOf);
    assert filtered.Success? <==> Resolvable(regions, constellationsOf, systemsOf) by {
      ReachedSpec(regions, constellationsOf, systemsOf);
    }
    if filtered.Success? {
      ReportForSucceeds(filtered.value, index, enabledIndices, threshold, fmt);
    }
  }

  /**
   * After the region filter the run fails only on a user key outside the
   * six activities, and then with `NotAnActivity`.
   */
  lemma ReportForSucceeds(tracked: seq<SolarSystem>, index: seq<SystemIndices>,
                          enabledIndices: Option<seq<(string, bool)>>, threshold: real, fmt: real -> string)
    requires enabledIndices.Some? ==> Distinct(Firsts(enabledIndices.value))
    ensures var r := ReportFor(tracked, index, enabledIndices, threshold, fmt);
            && (r.Success? <==> AllRecognised(enabledIndices))
            && (r.Failure? ==> r.error.NotAnActivity?)
  {
    var cfg := AssembleConfig(enabledIndices);
    var lists := Aggregate(index, tracked, cfg, threshold);
    assert ReportFor(tracked, index, enabledIndices, threshold, fmt) == BuildOutput(lists, cfg, fmt);
    assert Renderable(cfg, lists) <==> AllRecognised(enabledIndices) by {
      ConfigRenderable(enabledIndices, lists);
    }
    assert forall i :: 0 <= i < |cfg| ==> cfg[i].key in lists by {
      AggregateCovers(index, tracked, cfg, threshold);
    }
    BuildOutputSucceeds(cfg, lists, fmt);
  }

  /** With a list for every slot, the text is produced exactly on renderable input, and is otherwise refused for an unconverted key. */
  lemma BuildOutputSucceeds(cfg: Config, lists: map<string, seq<Metric>>, fmt: real -> string)
    requires forall i :: 0 <= i < |cfg| ==> cfg[i].key in lists
    ensures BuildOutput(lists, cfg, fmt).Success? <==> Renderable(cfg, lists)
    ensures BuildOutput(lists, cfg, fmt).Failure? ==> BuildOutput(lists, cfg, fmt).error.NotAnActivity?
  {
    EmitSucceeds(cfg, lists, Renderer(fmt), true);
    MissingListNever(cfg, lists, Renderer(fmt), true);
  }

  /** Every slot of the config has a list. */
  lemma AggregateCovers(index: seq<SystemIndices>, tracked: seq<SolarSystem>, cfg: Config, threshold: real)
    ensures forall i :: 0 <= i < |cfg| ==> cfg[i].key in Aggregate(index, tracked, cfg, threshold)
  {
    forall i | 0 <= i < |cfg|
      ensures cfg[i].key in Aggregate(index, tracked, cfg, threshold)
    {
      assert Keys(cfg)[i] == cfg[i].key;
    }
  }

  /** With a list for every key, the loop cannot fail for want of one. */
  lemma {:induction false} MissingListNever(cfg: Config, lists: map<string, seq<Metric>>, section: Render, first: bool)
    requires forall i :: 0 <= i < |cfg| ==> cfg[i].key in lists
    ensures Emit(cfg, lists, section, first).Failure? ==> Emit(cfg, lists, section, first).error.NotAnActivity?
  {
    if cfg != [] {
      assert forall i :: 0 <= i < |cfg[1..]| ==> cfg[1..][i].key in lists by {
        forall i | 0 <= i < |cfg[1..]| ensures cfg[1..][i].key in lists {
          assert cfg[1..][i] == cfg[i + 1];
        }
      }
      MissingListNever(cfg[1..], lists, section, first);
      MissingListNever(cfg[1..], lists, section, false);
    }
  }
}
