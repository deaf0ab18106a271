/**
 * The activity configuration assembled in `GetIndices`: one slot per key
 * of the user's `enabled_indices` dict, in the dict's order, then one
 * slot per recognised activity the user did not mention.
 */
module Activities {
  import opened Results
  import opened Seqs

  /** The six recognised activity keys with their report titles, in declaration order. */
  const Display: seq<(string, string)> := [
    ("manufacturing", "Manufacturing"),
    ("reaction", "Reaction"),
    ("researching_material_efficiency", "ME Research"),
    ("researching_time_efficiency", "TE Research"),
    ("invention", "Invention"),
    ("copying", "Copying")
  ]

  /**
   * The value a config dict holds under one key: a recognised activity
   * is rewritten to `{enabled, display_name}`; any other key keeps the
   * user's bare flag.
   */
  datatype Setting = Activity(enabled: bool, displayName: string) | Unconverted(flag: bool)

  datatype Slot = Slot(key: string, setting: Setting)

  /** An ordered dict from activity key to setting. */
  type Config = seq<Slot>

  /** The keys of an association list, in order. */
  function Firsts<V>(pairs: seq<(string, V)>): (ks: seq<string>)
    ensures |ks| == |pairs|
    ensures forall i :: 0 <= i < |pairs| ==> ks[i] == pairs[i].0
  {
    if pairs == [] then [] else [pairs[0].0] + Firsts(pairs[1..])
  }

  /** The value stored under `key`, taken from its first entry. */
  function Lookup<V>(pairs: seq<(string, V)>, key: string): (r: Option<V>)
    ensures r.Some? <==> key in Firsts(pairs)
    ensures r.Some? ==> exists i :: 0 <= i < |pairs| && pairs[i] == (key, r.value)
  {
    if pairs == [] then None
    else if pairs[0].0 == key then Some(pairs[0].1)
    else Lookup(pairs[1..], key)
  }

  function Keys(cfg: Config): (ks: seq<string>)
    ensures |ks| == |cfg|
    ensures forall i :: 0 <= i < |cfg| ==> ks[i] == cfg[i].key
  {
    if cfg == [] then [] else [cfg[0].key] + Keys(cfg[1..])
  }

  /** The recognised activity keys in declaration order. */
  function CanonicalKeys(): seq<string> {
    Firsts(Display)
  }

  /** The title the report uses for a recognised activity. */
  function DisplayName(key: string): Option<string> {
    Lookup(Display, key)
  }

  /** The rewrite of one entry of the user's dict, given the title table. */
  function Convert(display: seq<(string, string)>, entry: (string, bool)): Slot {
    match Lookup(display, entry.0)
    case Some(name) => Slot(entry.0, Activity(entry.1, name))
    case None => Slot(entry.0, Unconverted(entry.1))
  }

  function ConvertAll(display: seq<(string, string)>, user: seq<(string, bool)>): (cfg: Config)
    ensures |cfg| == |user|
    ensures forall i :: 0 <= i < |user| ==> cfg[i] == Convert(display, user[i])
  {
    if user == [] then [] else [Convert(display, user[0])] + ConvertAll(display, user[1..])
  }

  /** Disabled slots for the recognised activities the user did not mention. */
  function Missing(display: seq<(string, string)>, user: seq<(string, bool)>): (cfg: Config)
    ensures forall s :: s in cfg ==>
              && s.key !in Firsts(user)
              && s.setting.Activity? && !s.setting.enabled
              && (s.key, s.setting.displayName) in display
    ensures forall k :: k in Keys(cfg) <==> k in Firsts(display) && k !in Firsts(user)
  {
    if display == [] then []
    else
      var rest := Missing(display[1..], user);
      var (k, name) := display[0];
      assert Firsts(display) == [k] + Firsts(display[1..]);
      if k in Firsts(user) then rest
      else
        var cfg := [Slot(k, Activity(false, name))] + rest;
        assert Keys(cfg) == [k] + Keys(rest);
        cfg
  }

  /** The keys of `cfg` occur in `ks`, each later one strictly further along. */
  ghost predicate InOrderOf(cfg: Config, ks: seq<string>) {
    && (forall i :: 0 <= i < |cfg| ==> cfg[i].key in ks)
    && (forall i :: 0 < i < |cfg| ==> IndexOf(ks, cfg[i - 1].key) < IndexOf(ks, cfg[i].key))
  }

  /** The appended slots follow the declaration order of `display`, each key once. */
  lemma {:induction false} MissingOrder(display: seq<(string, string)>, user: seq<(string, bool)>)
    requires Distinct(Firsts(display))
    ensures InOrderOf(Missing(display, user), Firsts(display))
    ensures Distinct(Keys(Missing(display, user)))
  {
    if display != [] {
      DisplayTail(display);
      MissingOrder(display[1..], user);
      MissingStep(display, user);
    }
  }

  lemma MissingStep(display: seq<(string, string)>, user: seq<(string, bool)>)
    requires display != [] && Distinct(Firsts(display))
    requires Distinct(Firsts(display[1..])) && display[0].0 !in Firsts(display[1..])
    requires forall x :: x in Firsts(display[1..]) ==> x in Firsts(display) && IndexOf(Firsts(display), x) == 1 + IndexOf(Firsts(display[1..]), x)
    requires InOrderOf(Missing(display[1..], user), Firsts(display[1..]))
    requires Distinct(Keys(Missing(display[1..], user)))
    ensures InOrderOf(Missing(display, user), Firsts(display))
    ensures Distinct(Keys(Missing(display, user)))
  {
    var rest := Missing(display[1..], user);
    var ks, ks' := Firsts(display), Firsts(display[1..]);
    if display[0].0 in Firsts(user) {
      assert Missing(display, user) == rest;
      OrderShift(rest, ks, ks');
    } else {
      var slot := Slot(display[0].0, Activity(false, display[0].1));
      assert Missing(display, user) == [slot] + rest;
      assert ks[0] == slot.key;
      OrderCons(slot, rest, ks, ks');
      assert Keys([slot] + rest) == [slot.key] + Keys(rest);
      DistinctCons(slot.key, Keys(rest));
    }
  }

  lemma OrderShift(rest: Config, ks: seq<string>, ks': seq<string>)
    requires InOrderOf(rest, ks')
    requires forall x :: x in ks' ==> x in ks && IndexOf(ks, x) == 1 + IndexOf(ks', x)
    ensures InOrderOf(rest, ks)
  {
  }

  lemma OrderCons(slot: Slot, rest: Config, ks: seq<string>, ks': seq<string>)
    requires InOrderOf(rest, ks')
    requires forall x :: x in ks' ==> x in ks && IndexOf(ks, x) == 1 + IndexOf(ks', x)
    requires ks != [] && ks[0] == slot.key
    ensures InOrderOf([slot] + rest, ks)
  {
    OrderShift(rest, ks, ks');
    var cfg := [slot] + rest;
    forall i | 0 < i < |cfg|
      ensures IndexOf(ks, cfg[i - 1].key) < IndexOf(ks, cfg[i].key)
    {
      assert cfg[i] == rest[i - 1];
      if i > 1 {
        assert cfg[i - 1] == rest[i - 2];
      }
    }
  }

  lemma DisplayTail(display: seq<(string, string)>)
    requires display != [] && Distinct(Firsts(display))
    ensures Distinct(Firsts(display[1..]))
    ensures display[0].0 !in Firsts(display[1..])
    ensures forall x :: x in Firsts(display[1..]) ==> x in Firsts(display) && IndexOf(Firsts(display), x) == 1 + IndexOf(Firsts(display[1..]), x)
  {
    var ks := Firsts(display);
    assert ks == [display[0].0] + Firsts(display[1..]);
    assert ks[1..] == Firsts(display[1..]);
  }

  /** In a dict with distinct keys the lookup finds the one entry for its key. */
  lemma {:induction false} LookupDistinct<V>(pairs: seq<(string, V)>, k: string, v: V)
    requires Distinct(Firsts(pairs)) && (k, v) in pairs
    ensures Lookup(pairs, k) == Some(v)
  {
    var ks := Firsts(pairs);
    assert ks == [pairs[0].0] + Firsts(pairs[1..]);
    assert ks[1..] == Firsts(pairs[1..]);
    if pairs[0] != (k, v) {
      assert (k, v) in pairs[1..];
      LookupDistinct(pairs[1..], k, v);
    }
  }

  /**
   * What a slot of the assembled config holds: a key with a title carries
   * it and is enabled exactly when the user set it to true; any other key
   * keeps the user's flag unconverted.
   */
  ghost predicate SlotFor(display: seq<(string, string)>, user: seq<(string, bool)>, s: Slot) {
    match Lookup(display, s.key)
    case Some(name) => s.setting == Activity(Lookup(user, s.key) == Some(true), name)
    case None => Lookup(user, s.key).Some? && s.setting == Unconverted(Lookup(user, s.key).value)
  }

  /** The loop over the title table, for any table with distinct keys. */
  function Assemble(display: seq<(string, string)>, user: seq<(string, bool)>): (cfg: Config)
    requires Distinct(Firsts(display)) && Distinct(Firsts(user))
    ensures Distinct(Keys(cfg))
    ensures forall k :: k in Keys(cfg) <==> k in Firsts(user) || k in Firsts(display)
    ensures |user| <= |cfg|
    ensures Keys(cfg)[..|user|] == Firsts(user)
    ensures forall i :: 0 <= i < |cfg| ==> SlotFor(display, user, cfg[i])
    ensures InOrderOf(cfg[|user|..], Firsts(display))
  {
    var head, tail := ConvertAll(display, user), Missing(display, user);
    var cfg := head + tail;
    MissingOrder(display, user);
    assert cfg[|user|..] == tail;
    AssembleKeys(user, display, head, tail, cfg);
    AssembleDistinct(user, display, head, tail, cfg);
    AssembleSlots(user, display, head, tail, cfg);
    cfg
  }

  /**
   * `config_idx`: empty without `enabled_indices`; otherwise the user's
   * dict with each recognised key rewritten in place and the remaining
   * recognised keys appended, disabled and in declaration order.
   */
  function AssembleConfig(enabledIndices: Option<seq<(string, bool)>>): (cfg: Config)
    requires enabledIndices.Some? ==> Distinct(Firsts(enabledIndices.value))
    ensures enabledIndices.None? ==> cfg == []
    ensures enabledIndices.Some? ==>
              var user := enabledIndices.value;
              && Distinct(Keys(cfg))
              && (forall k :: k in Keys(cfg) <==> k in Firsts(user) || k in CanonicalKeys())
              && |user| <= |cfg|
              && Keys(cfg)[..|user|] == Firsts(user)
              && (forall i :: 0 <= i < |cfg| ==> SlotFor(Display, user, cfg[i]))
              && InOrderOf(cfg[|user|..], CanonicalKeys())
  {
    match enabledIndices
    case None => []
    case Some(user) =>
      DisplayDistinct();
      Assemble(Display, user)
  }

  lemma DisplayDistinct()
    ensures Distinct(Firsts(Display))
  {
    var ks := Firsts(Display);
    assert ks == ["manufacturing", "reaction", "researching_material_efficiency",
                  "researching_time_efficiency", "invention", "copying"];
  }

  lemma {:induction false} KeysConcat(a: Config, b: Config)
    ensures Keys(a + b) == Keys(a) + Keys(b)
  {
    if a == [] {
      assert a + b == b;
    } else {
      assert (a + b)[1..] == a[1..] + b;
      KeysConcat(a[1..], b);
    }
  }

  lemma KeysConvertAll(display: seq<(string, string)>, user: seq<(string, bool)>)
    ensures Keys(ConvertAll(display, user)) == Firsts(user)
  {
    var ks := Keys(ConvertAll(display, user));
    assert |ks| == |Firsts(user)|;
    forall i | 0 <= i < |ks|
      ensures ks[i] == Firsts(user)[i]
    {
      assert ConvertAll(display, user)[i] == Convert(display, user[i]);
    }
  }

  lemma AssembleKeys(user: seq<(string, bool)>, display: seq<(string, string)>, head: Config, tail: Config, cfg: Config)
    requires head == ConvertAll(display, user) && tail == Missing(display, user) && cfg == head + tail
    ensures Keys(cfg) == Firsts(user) + Keys(tail)
    ensures forall k :: k in Keys(cfg) <==> k in Firsts(user) || k in Firsts(display)
    ensures |user| <= |cfg| && Keys(cfg)[..|user|] == Firsts(user)
  {
    assert Keys(cfg) == Firsts(user) + Keys(tail) by {
      KeysConcat(head, tail);
      KeysConvertAll(display, user);
    }
    KeysUnion(Keys(cfg), Firsts(user), Keys(tail), Firsts(display));
  }

  /** Appending the missing keys gives every key of either list, with the user's first. */
  lemma KeysUnion(ks: seq<string>, us: seq<string>, ts: seq<string>, ds: seq<string>)
    requires ks == us + ts
    requires forall k :: k in ts <==> k in ds && k !in us
    ensures forall k :: k in ks <==> k in us || k in ds
    ensures |us| <= |ks| && ks[..|us|] == us
  {
    assert ks[..|us|] == us;
  }

  lemma AssembleDistinct(user: seq<(string, bool)>, display: seq<(string, string)>, head: Config, tail: Config, cfg: Config)
    requires Distinct(Firsts(user)) && Distinct(Keys(tail))
    requires head == ConvertAll(display, user) && tail == Missing(display, user) && cfg == head + tail
    requires Keys(cfg) == Firsts(user) + Keys(tail)
    ensures Distinct(Keys(cfg))
  {
    var ks, us, ts := Keys(cfg), Firsts(user), Keys(tail);
    forall i, j | 0 <= i < j < |ks|
      ensures ks[i] != ks[j]
    {
      if j < |us| {
        assert us[i] != us[j];
      } else if i < |us| {
        assert ks[j] == ts[j - |us|];
        assert ts[j - |us|] in ts;
      } else {
        assert ts[i - |us|] != ts[j - |us|];
      }
    }
  }

  lemma AssembleSlots(user: seq<(string, bool)>, display: seq<(string, string)>, head: Config, tail: Config, cfg: Config)
    requires Distinct(Firsts(user)) && Distinct(Firsts(display))
    requires head == ConvertAll(display, user) && tail == Missing(display, user) && cfg == head + tail
    ensures forall i :: 0 <= i < |cfg| ==> SlotFor(display, user, cfg[i])
  {
    forall i | 0 <= i < |cfg|
      ensures SlotFor(display, user, cfg[i])
    {
      if i < |head| {
        assert user[i] in user;
        LookupDistinct(user, user[i].0, user[i].1);
      } else {
        var s := cfg[i];
        assert s == tail[i - |head|];
        assert s in tail;
        LookupDistinct(display, s.key, s.setting.displayName);
        assert s.key !in Firsts(user);
      }
    }
  }

  /** Each recognised key maps to its fixed title. */
  lemma DisplayNames()
    ensures DisplayName("manufacturing") == Some("Manufacturing")
    ensures DisplayName("reaction") == Some("Reaction")
    ensures DisplayName("researching_material_efficiency") == Some("ME Research")
    ensures DisplayName("researching_time_efficiency") == Some("TE Research")
    ensures DisplayName("invention") == Some("Invention")
    ensures DisplayName("copying") == Some("Copying")
    ensures |CanonicalKeys()| == 6
  {
    DisplayDistinct();
    LookupDistinct(Display, "manufacturing", "Manufacturing");
    LookupDistinct(Display, "reaction", "Reaction");
    LookupDistinct(Display, "researching_material_efficiency", "ME Research");
    LookupDistinct(Display, "researching_time_efficiency", "TE Research");
    LookupDistinct(Display, "invention", "Invention");
    LookupDistinct(Display, "copying", "Copying");
  }

  /** The exception the assembly loop raises as written. */
  datatype AssemblyError = UndefinedName(name: string)

  /**
   * The loop over the title table as written: a recognised key the user
   * did not mention reaches the branch that evaluates the undefined name
   * `false`, which raises before the slot is stored. `table` is the whole
   * title table, `rest` the part the loop has still to visit.
   */
  function AssembleAsWritten(table: seq<(string, string)>, rest: seq<(string, string)>, user: seq<(string, bool)>)
    : Result<Config, AssemblyError>
  {
    if rest == [] then Success(ConvertAll(table, user))
    else if rest[0].0 !in Firsts(user) then Failure(UndefinedName("false"))
    else AssembleAsWritten(table, rest[1..], user)
  }

  lemma {:induction false} AsWrittenOutcome(table: seq<(string, string)>, rest: seq<(string, string)>,
                                            user: seq<(string, bool)>)
    ensures AssembleAsWritten(table, rest, user).Success? <==> forall k :: k in Firsts(rest) ==> k in Firsts(user)
    ensures AssembleAsWritten(table, rest, user).Success? ==> AssembleAsWritten(table, rest, user).value == ConvertAll(table, user)
  {
    if rest != [] {
      assert Firsts(rest) == [rest[0].0] + Firsts(rest[1..]);
      AsWrittenOutcome(table, rest[1..], user);
      if rest[0].0 !in Firsts(user) {
        assert rest[0].0 in Firsts(rest);
      }
    }
  }

  /**
   * As written, the assembly succeeds only when the user mentions all six
   * activities, and then agrees with the corrected assembly; otherwise it
   * raises.
   */
  lemma AsWrittenNeedsEveryKey(user: seq<(string, bool)>)
    requires Distinct(Firsts(user))
    ensures AssembleAsWritten(Display, Display, user).Success? <==> forall k :: k in CanonicalKeys() ==> k in Firsts(user)
    ensures AssembleAsWritten(Display, Display, user).Success? ==>
              AssembleAsWritten(Display, Display, user).value == AssembleConfig(Some(user))
  {
    DisplayDistinct();
    AsWrittenAgrees(Display, user);
  }

  /** The written loop over any title table with distinct keys, against the corrected assembly. */
  lemma AsWrittenAgrees(table: seq<(string, string)>, user: seq<(string, bool)>)
    requires Distinct(Firsts(table)) && Distinct(Firsts(user))
    ensures AssembleAsWritten(table, table, user).Success? <==> forall k :: k in Firsts(table) ==> k in Firsts(user)
    ensures AssembleAsWritten(table, table, user).Success? ==> AssembleAsWritten(table, table, user).value == Assemble(table, user)
  {
    AsWrittenOutcome(table, table, user);
    if AssembleAsWritten(table, table, user).Success? {
      var head := ConvertAll(table, user);
      assert Missing(table, user) == [] by {
        MissingNone(table, user);
      }
      assert Assemble(table, user) == head + [];
      assert head + [] == head;
    }
  }

  /** When the user mentions every key of the table, nothing is appended. */
  lemma {:induction false} MissingNone(display: seq<(string, string)>, user: seq<(string, bool)>)
    requires forall k :: k in Firsts(display) ==> k in Firsts(user)
    ensures Missing(display, user) == []
  {
    if display != [] {
      assert Firsts(display) == [display[0].0] + Firsts(display[1..]);
      MissingNone(display[1..], user);
    }
  }

  /**
   * A user dict naming manufacturing alone makes the written loop raise,
   * while the corrected assembly adds the other five activities disabled.
   */
  lemma ManufacturingAloneRaises()
    ensures AssembleAsWritten(Display, Display, [("manufacturing", true)]) == Failure(UndefinedName("false"))
    ensures |AssembleConfig(Some([("manufacturing", true)]))| == 6
  {
    var user := [("manufacturing", true)];
    assert Firsts(user) == ["manufacturing"];
    DisplayDistinct();
    assert AssembleAsWritten(Display, Display, user) == Failure(UndefinedName("false")) by {
      WrittenRaisesSecond(Display, user);
    }
    assert |AssembleConfig(Some(user))| == 6 by {
      FirstKeyOnly(Display, user);
    }
  }

  /** The written loop raises at the table's second key when the user gave only the first. */
  lemma WrittenRaisesSecond(table: seq<(string, string)>, user: seq<(string, bool)>)
    requires Distinct(Firsts(table)) && |table| >= 2
    requires Firsts(user) == [table[0].0]
    ensures AssembleAsWritten(table, table, user) == Failure(UndefinedName("false"))
  {
    var ks := Firsts(table);
    assert ks[0] != ks[1];
    assert table[1..][0] == table[1];
  }

  /** A user dict holding only the table's first key gets that slot and one appended slot per other key. */
  lemma FirstKeyOnly(table: seq<(string, string)>, user: seq<(string, bool)>)
    requires Distinct(Firsts(table)) && table != []
    requires |user| == 1 && Firsts(user) == [table[0].0]
    ensures |Assemble(table, user)| == |table|
  {
    DisplayTail(table);
    assert Missing(table, user) == Missing(table[1..], user);
    MissingAll(table[1..], user);
    assert Assemble(table, user) == ConvertAll(table, user) + Missing(table, user);
  }

  /** When the user mentions none of the table's keys, every entry gets a slot. */
  lemma {:induction false} MissingAll(display: seq<(string, string)>, user: seq<(string, bool)>)
    requires forall k :: k in Firsts(display) ==> k !in Firsts(user)
    ensures |Missing(display, user)| == |display|
  {
    if display != [] {
      assert Firsts(display) == [display[0].0] + Firsts(display[1..]);
      MissingAll(display[1..], user);
    }
  }
}
