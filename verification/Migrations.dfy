/** Migrations of old configuration trees, and the normalisation of legacy settings. */
module Migrations {
  import opened Wrappers
  import opened Toml

  /** The names of the settings that changed, and how a value is read as an integer or a flag: toml++ also
      converts between kinds of number. */
  datatype Legacy = Legacy(radiusKeys: seq<string>, concave: string, bar: string, monitor: string,
                           location: string, customSchedule: string, sunset: string, sunrise: string, autoLocate: string,
                           address: string, latitude: string, longitude: string,
                           asInt: Value -> Option<int>, asBool: Value -> bool)

  /** The settings of the program. */
  ghost predicate Actual(l: Legacy) {
    && l.radiusKeys == ["radius", "radius_top_left", "radius_top_right", "radius_bottom_left", "radius_bottom_right"]
    && l.concave == "concave_edge_corners" && l.bar == "bar" && l.monitor == "monitor" && l.location == "location"
    && l.customSchedule == "custom_schedule" && l.sunset == "sunset" && l.sunrise == "sunrise"
    && l.autoLocate == "auto_locate" && l.address == "address" && l.latitude == "latitude" && l.longitude == "longitude"
    && (forall i :: l.asInt(Int(i)) == Some(i)) && (forall b :: l.asBool(Bool(b)) == b)
  }

  /** What the migrations rely on: names that do not clash, and integers read as they are. */
  ghost predicate Sound(l: Legacy) {
    && l.concave !in l.radiusKeys && l.monitor !in l.radiusKeys && l.monitor != l.concave && l.bar != l.location
    && (forall i :: l.asInt(Int(i)) == Some(i))
  }

  lemma ActualIsSound(l: Legacy)
    requires Actual(l)
    ensures Sound(l)
  {
    assert forall k <- l.radiusKeys :: |k| == 6 || |k| == 15 || |k| == 16 || |k| == 18 || |k| == 19;
  }

  const MAX_BAR_RADIUS: int := 500

  // ----- changing the tables of a tree -----

  /** The table at a key, changed. */
  function Within(t: Tree, key: string, change: Tree -> Tree): Tree {
    if key in t.entries && t.entries[key].Table? then Table(t.entries[key := change(t.entries[key])]) else t
  }

  /** Every table among the entries, changed. */
  function Each(t: Tree, change: Tree -> Tree): Tree {
    Table(map k | k in t.entries :: if t.entries[k].Table? then change(t.entries[k]) else t.entries[k])
  }

  /** The entries, changed but for those still waiting. */
  ghost predicate Changing(t: Tree, now: Tree, change: Tree -> Tree, waiting: set<string>) {
    && now.entries.Keys == t.entries.Keys
    && forall k <- t.entries.Keys ::
         now.entries[k] == if k in waiting || t.entries[k].Leaf? then t.entries[k] else change(t.entries[k])
  }

  lemma AllChanged(t: Tree, now: Tree, change: Tree -> Tree)
    requires Changing(t, now, change, {})
    ensures now == Each(t, change)
  {
    assert now.entries == Each(t, change).entries;
  }

  ghost predicate Idempotent(change: Tree -> Tree) {
    forall t: Tree :: change(change(t)) == change(t)
  }

  lemma EachIdempotent(change: Tree -> Tree)
    requires Idempotent(change)
    ensures forall t: Tree :: Each(Each(t, change), change) == Each(t, change)
  {
    forall t: Tree
      ensures Each(Each(t, change), change) == Each(t, change)
    {
      assert Each(Each(t, change), change).entries == Each(t, change).entries;
    }
  }

  lemma WithinIdempotent(t: Tree, key: string, change: Tree -> Tree)
    requires Idempotent(change)
    ensures Within(Within(t, key, change), key, change) == Within(t, key, change)
  {
    var once := Within(t, key, change);
    if key in t.entries && t.entries[key].Table? {
      assert Within(once, key, change).entries == once.entries;
    }
  }

  lemma WithinCommutes(t: Tree, key: string, change: Tree -> Tree, other: string, also: Tree -> Tree)
    requires key != other
    ensures Within(Within(t, key, change), other, also) == Within(Within(t, other, also), key, change)
  {
    assert Within(Within(t, key, change), other, also).entries == Within(Within(t, other, also), key, change).entries;
  }

  // ----- negative radii -----

  predicate Negative(l: Legacy, t: Tree, key: string) {
    key in t.entries && t.entries[key].Leaf?
    && l.asInt(t.entries[key].value).Some? && l.asInt(t.entries[key].value).value < 0
  }

  function Magnitude(radius: int): (m: int)
    requires radius < 0
    ensures 1 <= m <= MAX_BAR_RADIUS
    ensures m <= -radius && (m < -radius ==> m == MAX_BAR_RADIUS)
  {
    if radius <= -MAX_BAR_RADIUS then MAX_BAR_RADIUS else -radius
  }

  /** The value a key of the table has once the negative ones among `keys` are made positive. */
  function Positive(l: Legacy, t: Tree, keys: seq<string>, k: string): Node
    requires k in t.entries
  {
    if k in keys && Negative(l, t, k) then Leaf(Int(Magnitude(l.asInt(t.entries[k].value).value))) else t.entries[k]
  }

  predicate AnyNegative(l: Legacy, t: Tree, keys: seq<string>) {
    exists k :: k in keys && Negative(l, t, k)
  }

  function FixRadii(l: Legacy, t: Tree, keys: seq<string>, mark: string): Tree {
    if AnyNegative(l, t, keys)
    then Table((map k | k in t.entries :: Positive(l, t, keys, k))[mark := Leaf(Bool(true))])
    else t
  }

  method MigrateNegativeRadii(l: Legacy, table: Tree, keys: seq<string>, mark: string) returns (fixed: Tree, changed: bool)
    requires Sound(l) && mark !in keys
    ensures fixed == FixRadii(l, table, keys, mark) && changed == AnyNegative(l, table, keys)
  {
    fixed, changed := table, false;
    var i := 0;
    while i < |keys|
      invariant 0 <= i <= |keys|
      invariant fixed.entries == map k | k in table.entries :: Positive(l, table, keys[..i], k)
      invariant changed == AnyNegative(l, table, keys[..i])
    {
      var key := keys[i];
      assert keys[..i + 1] == keys[..i] + [key];
      i := i + 1;
      if key !in fixed.entries || !fixed.entries[key].Leaf? {
        continue;
      }
      var radius := l.asInt(fixed.entries[key].value);
      if radius.None? || radius.value >= 0 {
        continue;
      }
      var magnitude := if radius.value <= -MAX_BAR_RADIUS then MAX_BAR_RADIUS else -radius.value;
      fixed := Table(fixed.entries[key := Leaf(Int(magnitude))]);
      changed := true;
    }
    assert keys[..i] == keys;
    if changed {
      fixed := Table(fixed.entries[mark := Leaf(Bool(true))]);
    } else {
      assert fixed.entries == table.entries;
    }
  }

  lemma {:induction false} FixRadiiLeavesNone(l: Legacy, t: Tree, keys: seq<string>, mark: string)
    requires Sound(l) && mark !in keys
    ensures !AnyNegative(l, FixRadii(l, t, keys, mark), keys)
  {
    if AnyNegative(l, t, keys) {
      var fixed := FixRadii(l, t, keys, mark);
      forall k | k in keys
        ensures !Negative(l, fixed, k)
      {
        if k in t.entries && Negative(l, t, k) {
          assert fixed.entries[k] == Positive(l, t, keys, k);
        }
      }
    }
  }

  /** The tables named by the bar, and by its monitors. */
  function FixTable(l: Legacy): Tree -> Tree {
    t => FixRadii(l, t, l.radiusKeys, l.concave)
  }

  function FixMonitors(l: Legacy): Tree -> Tree {
    t => Each(t, FixTable(l))
  }

  function FixBar(l: Legacy): Tree -> Tree {
    t => Within(FixRadii(l, t, l.radiusKeys, l.concave), l.monitor, FixMonitors(l))
  }

  function FixBars(l: Legacy): Tree -> Tree {
    t => Each(t, FixBar(l))
  }

  /** `migrateNegativeBarRadii`. */
  function FixNegativeBarRadii(l: Legacy, root: Tree): Tree {
    Within(root, l.bar, FixBars(l))
  }

  lemma FixTableIdempotent(l: Legacy)
    requires Sound(l)
    ensures Idempotent(FixTable(l))
  {
    forall t: Tree
      ensures FixTable(l)(FixTable(l)(t)) == FixTable(l)(t)
    {
      FixRadiiLeavesNone(l, t, l.radiusKeys, l.concave);
    }
  }

  lemma FixBarIdempotent(l: Legacy)
    requires Sound(l)
    ensures Idempotent(FixBar(l))
  {
    FixTableIdempotent(l);
    EachIdempotent(FixTable(l));
    assert Idempotent(FixMonitors(l));
    forall t: Tree
      ensures FixBar(l)(FixBar(l)(t)) == FixBar(l)(t)
    {
      FixBarTwice(l, t, l.radiusKeys, l.concave, l.monitor, FixMonitors(l));
    }
  }

  lemma FixBarTwice(l: Legacy, t: Tree, keys: seq<string>, mark: string, key: string, change: Tree -> Tree)
    requires Sound(l) && mark !in keys && key !in keys && Idempotent(change)
    ensures var once := Within(FixRadii(l, t, keys, mark), key, change);
            Within(FixRadii(l, once, keys, mark), key, change) == once
  {
    var fixed := FixRadii(l, t, keys, mark);
    var once := Within(fixed, key, change);
    FixRadiiLeavesNone(l, t, keys, mark);
    forall k | k in keys
      ensures Negative(l, once, k) <==> Negative(l, fixed, k)
    {
      assert k != key;
    }
    WithinIdempotent(fixed, key, change);
  }

  lemma FixNegativeBarRadiiIdempotent(l: Legacy, root: Tree)
    requires Sound(l)
    ensures FixNegativeBarRadii(l, FixNegativeBarRadii(l, root)) == FixNegativeBarRadii(l, root)
  {
    FixBarIdempotent(l);
    EachIdempotent(FixBar(l));
    assert Idempotent(FixBars(l));
    WithinIdempotent(root, l.bar, FixBars(l));
  }

  /** Where a legacy setting is reported. */
  datatype Place = BarPlace(bar: string) | MonitorPlace(bar: string, monitor: string) | LocationPlace

  predicate HasNegative(l: Legacy, n: Node) {
    n.Table? && AnyNegative(l, n, l.radiusKeys)
  }

  /** The tables among the entries of the table at a key, or none. */
  function Under(n: Node, key: string): map<string, Node> {
    if n.Table? && key in n.entries && n.entries[key].Table? then n.entries[key].entries else map[]
  }

  /** What is reported of one bar: itself or one of its monitors. */
  predicate NegativeIn(l: Legacy, bar: Node, p: Place) {
    if p.BarPlace? then HasNegative(l, bar)
    else
      p.MonitorPlace? && p.monitor in Under(bar, l.monitor) && HasNegative(l, Under(bar, l.monitor)[p.monitor])
  }

  /** What `migrateNegativeBarRadii` reports. */
  predicate NegativeAt(l: Legacy, root: Tree, p: Place) {
    !p.LocationPlace? && p.bar in Under(root, l.bar) && NegativeIn(l, Under(root, l.bar)[p.bar], p)
  }

  method MigrateMonitors(l: Legacy, monitors: Tree) returns (fixed: Tree, changed: set<string>)
    requires Sound(l)
    ensures fixed == FixMonitors(l)(monitors)
    ensures changed == set m | m in monitors.entries && HasNegative(l, monitors.entries[m])
  {
    fixed, changed := monitors, {};
    var names := monitors.entries.Keys;
    while names != {}
      invariant names <= monitors.entries.Keys && Changing(monitors, fixed, FixTable(l), names)
      invariant changed == set m | m in monitors.entries && m !in names && HasNegative(l, monitors.entries[m])
      decreases names
    {
      var name :| name in names;
      names := names - {name};
      if monitors.entries[name].Table? {
        var monitor, negative := MigrateNegativeRadii(l, monitors.entries[name], l.radiusKeys, l.concave);
        fixed := Table(fixed.entries[name := monitor]);
        changed := changed + if negative then {name} else {};
      }
    }
    AllChanged(monitors, fixed, FixTable(l));
  }

  lemma MonitorsStay(l: Legacy, bar: Tree, keys: seq<string>, mark: string, key: string)
    requires key !in keys && key != mark
    ensures var fixed := FixRadii(l, bar, keys, mark);
            (key in fixed.entries <==> key in bar.entries) && (key in bar.entries ==> fixed.entries[key] == bar.entries[key])
  {
  }

  /** The bar alone, then its monitors. */
  method MigrateBar(l: Legacy, bar: Tree) returns (fixed: Tree, own: bool, changed: set<string>)
    requires Sound(l)
    ensures fixed == FixBar(l)(bar) && own == HasNegative(l, bar)
    ensures changed == set m | m in Under(bar, l.monitor) && HasNegative(l, Under(bar, l.monitor)[m])
  {
    fixed, own := MigrateNegativeRadii(l, bar, l.radiusKeys, l.concave);
    changed := {};
    MonitorsStay(l, bar, l.radiusKeys, l.concave, l.monitor);
    if l.monitor !in fixed.entries || !fixed.entries[l.monitor].Table? {
      return;
    }
    var monitors;
    monitors, changed := MigrateMonitors(l, fixed.entries[l.monitor]);
    fixed := Table(fixed.entries[l.monitor := monitors]);
  }

  function PlacesOf(name: string, own: bool, changed: set<string>): (places: set<Place>)
    ensures forall p :: p in places <==>
      (p == BarPlace(name) && own) || (p.MonitorPlace? && p.bar == name && p.monitor in changed)
  {
    (if own then {BarPlace(name)} else {}) + set m | m in changed :: MonitorPlace(name, m)
  }

  /** The issues are those of the bars that are no longer waiting. */
  ghost predicate Reported(l: Legacy, bars: Tree, issues: set<Place>, waiting: set<string>) {
    forall p :: p in issues <==>
      !p.LocationPlace? && p.bar in bars.entries && p.bar !in waiting && NegativeIn(l, bars.entries[p.bar], p)
  }

  lemma ReportsOn(l: Legacy, bars: Tree, issues: set<Place>, waiting: set<string>, name: string, own: bool, changed: set<string>)
    requires name in bars.entries && name !in waiting && Reported(l, bars, issues, waiting + {name})
    requires own == HasNegative(l, bars.entries[name])
    requires var monitors := Under(bars.entries[name], l.monitor);
             changed == set m | m in monitors && HasNegative(l, monitors[m])
    ensures Reported(l, bars, issues + PlacesOf(name, own, changed), waiting)
  {
  }

  lemma ChangesOn(t: Tree, now: Tree, change: Tree -> Tree, waiting: set<string>, name: string)
    requires name in t.entries && name !in waiting && Changing(t, now, change, waiting + {name})
    ensures t.entries[name].Table? ==> Changing(t, Table(now.entries[name := change(t.entries[name])]), change, waiting)
    ensures t.entries[name].Leaf? ==> Changing(t, now, change, waiting)
  {
  }

  method MigrateNext(l: Legacy, bars: Tree, name: string, now: Tree, reported: set<Place>, ghost waiting: set<string>)
    returns (fixed: Tree, issues: set<Place>)
    requires Sound(l) && name in bars.entries && name !in waiting
    requires Changing(bars, now, FixBar(l), waiting + {name}) && Reported(l, bars, reported, waiting + {name})
    ensures Changing(bars, fixed, FixBar(l), waiting) && Reported(l, bars, issues, waiting)
  {
    ChangesOn(bars, now, FixBar(l), waiting, name);
    if bars.entries[name].Leaf? {
      ReportsOn(l, bars, reported, waiting, name, false, {});
      assert PlacesOf(name, false, {}) == {};
      return now, reported;
    }
    var bar, own, changed := MigrateBar(l, bars.entries[name]);
    ReportsOn(l, bars, reported, waiting, name, own, changed);
    fixed := Table(now.entries[name := bar]);
    issues := reported + PlacesOf(name, own, changed);
  }

  method MigrateBars(l: Legacy, bars: Tree) returns (fixed: Tree, issues: set<Place>)
    requires Sound(l)
    ensures fixed == FixBars(l)(bars) && Reported(l, bars, issues, {})
  {
    fixed, issues := bars, {};
    var names := bars.entries.Keys;
    while names != {}
      invariant names <= bars.entries.Keys && Changing(bars, fixed, FixBar(l), names) && Reported(l, bars, issues, names)
      decreases names
    {
      var name :| name in names;
      assert names == (names - {name}) + {name};
      names := names - {name};
      fixed, issues := MigrateNext(l, bars, name, fixed, issues, names);
    }
    AllChanged(bars, fixed, FixBar(l));
  }

  method MigrateNegativeBarRadii(l: Legacy, root: Tree) returns (fixed: Tree, issues: set<Place>)
    requires Sound(l)
    ensures fixed == FixNegativeBarRadii(l, root)
    ensures forall p :: p in issues <==> NegativeAt(l, root, p)
  {
    if l.bar !in root.entries || !root.entries[l.bar].Table? {
      return root, {};
    }
    var bars;
    bars, issues := MigrateBars(l, root.entries[l.bar]);
    fixed := Table(root.entries[l.bar := bars]);
  }

  // ----- schedules -----

  predicate TextAt(t: Tree, key: string) {
    key in t.entries && t.entries[key].Leaf? && t.entries[key].value.Str? && t.entries[key].value.s != ""
  }

  predicate NumberAt(t: Tree, key: string) {
    key in t.entries && t.entries[key].Leaf? && (t.entries[key].value.Int? || t.entries[key].value.Float?)
  }

  predicate FlagAt(l: Legacy, t: Tree, key: string) {
    key in t.entries && t.entries[key].Leaf? && l.asBool(t.entries[key].value)
  }

  /** Times are set, nothing else says where the sun is, and the new switch is not there. */
  predicate Unscheduled(l: Legacy, location: Tree) {
    && l.customSchedule !in location.entries && TextAt(location, l.sunset) && TextAt(location, l.sunrise)
    && !FlagAt(l, location, l.autoLocate) && !TextAt(location, l.address)
    && !(NumberAt(location, l.latitude) && NumberAt(location, l.longitude))
  }

  function Schedule(l: Legacy): Tree -> Tree {
    t => if Unscheduled(l, t) then Table(t.entries[l.customSchedule := Leaf(Bool(true))]) else t
  }

  function FixSchedule(l: Legacy, root: Tree): Tree {
    Within(root, l.location, Schedule(l))
  }

  predicate LocationUnscheduled(l: Legacy, root: Tree) {
    l.location in root.entries && root.entries[l.location].Table? && Unscheduled(l, root.entries[l.location])
  }

  method MigrateCustomSchedule(l: Legacy, root: Tree) returns (fixed: Tree, issues: set<Place>)
    ensures fixed == FixSchedule(l, root)
    ensures issues == if LocationUnscheduled(l, root) then {LocationPlace} else {}
  {
    if l.location !in root.entries || !root.entries[l.location].Table? {
      return root, {};
    }
    var location: Tree := root.entries[l.location];
    assert root.entries[l.location := location] == root.entries;
    if l.customSchedule in location.entries {
      return root, {};
    }
    if !TextAt(location, l.sunset) || !TextAt(location, l.sunrise) {
      return root, {};
    }
    var hasCoordinates := NumberAt(location, l.latitude) && NumberAt(location, l.longitude);
    if FlagAt(l, location, l.autoLocate) || TextAt(location, l.address) || hasCoordinates {
      return root, {};
    }
    fixed := Table(root.entries[l.location := Table(location.entries[l.customSchedule := Leaf(Bool(true))])]);
    issues := {LocationPlace};
  }

  // ----- both together -----

  function Normalized(l: Legacy, root: Tree): Tree {
    FixSchedule(l, FixNegativeBarRadii(l, root))
  }

  predicate IsLegacy(l: Legacy, root: Tree, p: Place) {
    NegativeAt(l, root, p) || (p.LocationPlace? && LocationUnscheduled(l, root))
  }

  /** `normalizeLegacyConfig`, with the places it reports. */
  method NormalizeLegacyConfig(l: Legacy, root: Tree) returns (fixed: Tree, issues: set<Place>)
    requires Sound(l)
    ensures fixed == Normalized(l, root)
    ensures forall p :: p in issues <==> IsLegacy(l, root, p)
  {
    var radii, location;
    fixed, radii := MigrateNegativeBarRadii(l, root);
    ghost var between := fixed;
    fixed, location := MigrateCustomSchedule(l, fixed);
    assert LocationUnscheduled(l, between) == LocationUnscheduled(l, root);
    issues := radii + location;
  }

  /** Normalising a normalised tree changes nothing. */
  lemma NormalizedIsIdempotent(l: Legacy, root: Tree)
    requires Sound(l)
    ensures Normalized(l, Normalized(l, root)) == Normalized(l, root)
  {
    var fixed := FixNegativeBarRadii(l, root);
    FixNegativeBarRadiiIdempotent(l, root);
    WithinCommutes(fixed, l.location, Schedule(l), l.bar, FixBars(l));
    assert FixNegativeBarRadii(l, FixSchedule(l, fixed)) == FixSchedule(l, FixNegativeBarRadii(l, fixed));
    assert Idempotent(Schedule(l));
    WithinIdempotent(fixed, l.location, Schedule(l));
  }

  /** The bars of a normalised tree. */
  lemma NormalizedBars(l: Legacy, root: Tree, bar: string)
    requires Sound(l)
    ensures var was, now := Under(root, l.bar), Under(Normalized(l, root), l.bar);
            (bar in now <==> bar in was)
            && (bar in was ==> now[bar] == if was[bar].Table? then FixBar(l)(was[bar]) else was[bar])
  {
    assert Under(Normalized(l, root), l.bar) == Under(FixNegativeBarRadii(l, root), l.bar);
  }

  /** Nothing is reported of a normalised tree. */
  lemma NormalizedIsSilent(l: Legacy, root: Tree, p: Place)
    requires Sound(l)
    ensures !IsLegacy(l, Normalized(l, root), p)
  {
    if !p.LocationPlace? {
      NormalizedBars(l, root, p.bar);
      if p.bar in Under(root, l.bar) && Under(root, l.bar)[p.bar].Table? {
        FixedBarIsSilent(l, Under(root, l.bar)[p.bar], p);
      }
    }
  }

  lemma FixedBarIsSilent(l: Legacy, bar: Tree, p: Place)
    requires Sound(l)
    ensures !NegativeIn(l, FixBar(l)(bar), p)
  {
    var fixed := FixRadii(l, bar, l.radiusKeys, l.concave);
    FixRadiiLeavesNone(l, bar, l.radiusKeys, l.concave);
    var after := FixBar(l)(bar);
    forall k | k in l.radiusKeys
      ensures Negative(l, after, k) <==> Negative(l, fixed, k)
    {
      assert k != l.monitor;
    }
    if p.MonitorPlace? && p.monitor in Under(fixed, l.monitor) {
      var monitor := Under(fixed, l.monitor)[p.monitor];
      if monitor.Table? {
        FixRadiiLeavesNone(l, monitor, l.radiusKeys, l.concave);
      }
    }
  }

  // ----- nothing else changes -----

  /** If either tree has a leaf at the path, the other has the same. */
  predicate SameLeaf(a: Node, b: Node, q: Path) {
    (Get(a, q).Some? && Get(a, q).value.Leaf?) || (Get(b, q).Some? && Get(b, q).value.Leaf?) ==> Get(a, q) == Get(b, q)
  }

  predicate IsRadiusSetting(l: Legacy, key: string) {
    key in l.radiusKeys || key == l.concave
  }

  /** The path is, or lies below, a setting that normalising may write. */
  predicate Touchable(l: Legacy, q: Path) {
    || (|q| >= 3 && q[0] == l.bar && IsRadiusSetting(l, q[2]))
    || (|q| >= 5 && q[0] == l.bar && q[2] == l.monitor && IsRadiusSetting(l, q[4]))
    || (|q| >= 2 && q[0] == l.location && q[1] == l.customSchedule)
  }

  lemma RadiiTouchOnly(l: Legacy, t: Tree, q: Path)
    requires q == [] || !IsRadiusSetting(l, q[0])
    ensures SameLeaf(t, FixTable(l)(t), q)
  {
    if q != [] && q[0] in t.entries {
      assert Positive(l, t, l.radiusKeys, q[0]) == t.entries[q[0]];
    }
  }

  lemma MonitorsTouchOnly(l: Legacy, t: Tree, q: Path)
    requires |q| < 2 || !IsRadiusSetting(l, q[1])
    ensures SameLeaf(t, FixMonitors(l)(t), q)
  {
    if q != [] && q[0] in t.entries && t.entries[q[0]].Table? {
      RadiiTouchOnly(l, t.entries[q[0]], q[1..]);
    }
  }

  lemma BarTouchesOnly(l: Legacy, t: Tree, q: Path)
    requires Sound(l) && (q == [] || !IsRadiusSetting(l, q[0]))
    requires |q| < 3 || q[0] != l.monitor || !IsRadiusSetting(l, q[2])
    ensures SameLeaf(t, FixBar(l)(t), q)
  {
    var fixed := FixTable(l)(t);
    RadiiTouchOnly(l, t, q);
    if q != [] && q[0] == l.monitor && l.monitor in fixed.entries && fixed.entries[l.monitor].Table? {
      MonitorsTouchOnly(l, fixed.entries[l.monitor], q[1..]);
    }
  }

  lemma BarsTouchOnly(l: Legacy, t: Tree, q: Path)
    requires Sound(l) && (|q| < 2 || !IsRadiusSetting(l, q[1]))
    requires |q| < 4 || q[1] != l.monitor || !IsRadiusSetting(l, q[3])
    ensures SameLeaf(t, FixBars(l)(t), q)
  {
    if q != [] && q[0] in t.entries && t.entries[q[0]].Table? {
      BarTouchesOnly(l, t.entries[q[0]], q[1..]);
    }
  }

  /** Outside the radii, their switch and the schedule's, every leaf stays as it is, and none appears. */
  lemma NormalizedTouchesOnly(l: Legacy, root: Tree, q: Path)
    requires Sound(l) && !Touchable(l, q)
    ensures SameLeaf(root, Normalized(l, root), q)
  {
    var fixed := FixNegativeBarRadii(l, root);
    if q != [] && q[0] == l.bar {
      assert SameLeaf(fixed, Normalized(l, root), q);
      if l.bar in root.entries && root.entries[l.bar].Table? {
        BarsTouchOnly(l, root.entries[l.bar], q[1..]);
      }
    } else {
      assert SameLeaf(root, fixed, q);
      if q != [] && q[0] == l.location && l.location in fixed.entries && fixed.entries[l.location].Table? {
        ScheduleTouchesOnly(l, fixed.entries[l.location], q[1..]);
      }
    }
  }

  lemma ScheduleTouchesOnly(l: Legacy, t: Tree, q: Path)
    requires q == [] || q[0] != l.customSchedule
    ensures SameLeaf(t, Schedule(l)(t), q)
  {
  }

  /** The table at a place, in a tree that has one. */
  function TableOf(l: Legacy, root: Tree, p: Place): Option<Node> {
    if p.LocationPlace? then (if l.location in root.entries then Some(root.entries[l.location]) else None)
    else if p.bar !in Under(root, l.bar) then None
    else if p.BarPlace? then Some(Under(root, l.bar)[p.bar])
    else
      var monitors := Under(Under(root, l.bar)[p.bar], l.monitor);
      if p.monitor in monitors then Some(monitors[p.monitor]) else None
  }

  /** The table has the key's magnitude, at most 500, in place of the negative value, and concave corners. */
  ghost predicate MadePositive(l: Legacy, was: Tree, now: Tree, key: string)
    requires Negative(l, was, key)
  {
    && l.concave in now.entries && now.entries[l.concave] == Leaf(Bool(true))
    && key in now.entries && now.entries[key] == Leaf(Int(Magnitude(l.asInt(was.entries[key].value).value)))
  }

  lemma TableBecomesPositive(l: Legacy, t: Tree, key: string)
    requires Sound(l) && key in l.radiusKeys && Negative(l, t, key)
    ensures MadePositive(l, t, FixTable(l)(t), key)
  {
    assert FixTable(l)(t).entries[key] == Positive(l, t, l.radiusKeys, key);
  }

  lemma BarBecomesPositive(l: Legacy, bar: Tree, key: string)
    requires Sound(l) && key in l.radiusKeys && Negative(l, bar, key)
    ensures MadePositive(l, bar, FixBar(l)(bar), key)
  {
    TableBecomesPositive(l, bar, key);
  }

  lemma FixedMonitor(l: Legacy, bar: Tree, monitor: string)
    requires Sound(l) && monitor in Under(bar, l.monitor) && Under(bar, l.monitor)[monitor].Table?
    ensures var monitors := Under(FixBar(l)(bar), l.monitor);
            monitor in monitors && monitors[monitor] == FixTable(l)(Under(bar, l.monitor)[monitor])
  {
    MonitorsStay(l, bar, l.radiusKeys, l.concave, l.monitor);
  }

  /** Where radii are negative, each becomes its magnitude, and the corners turn concave. */
  lemma NegativeRadiiBecomePositive(l: Legacy, root: Tree, p: Place, key: string)
    requires Sound(l) && NegativeAt(l, root, p) && key in l.radiusKeys && Negative(l, TableOf(l, root, p).value, key)
    ensures var now := TableOf(l, Normalized(l, root), p);
            now.Some? && now.value.Table? && MadePositive(l, TableOf(l, root, p).value, now.value, key)
  {
    var bar := Under(root, l.bar)[p.bar];
    NormalizedBars(l, root, p.bar);
    if p.BarPlace? {
      BarBecomesPositive(l, bar, key);
    } else {
      FixedMonitor(l, bar, p.monitor);
      TableBecomesPositive(l, Under(bar, l.monitor)[p.monitor], key);
    }
  }

  predicate SameEntry(was: Tree, now: Tree, key: string) {
    (key in now.entries <==> key in was.entries) && (key in was.entries ==> now.entries[key] == was.entries[key])
  }

  /** Normalising the table has nothing to do at the key: not a negative radius, nor the switch beside one. */
  predicate Settled(l: Legacy, t: Tree, key: string) {
    IsRadiusSetting(l, key) && !Negative(l, t, key) && (key == l.concave ==> !AnyNegative(l, t, l.radiusKeys))
  }

  lemma SettledStays(l: Legacy, t: Tree, key: string)
    requires Sound(l) && Settled(l, t, key)
    ensures SameEntry(t, FixTable(l)(t), key) && SameEntry(t, FixBar(l)(t), key)
  {
    if key in t.entries {
      assert Positive(l, t, l.radiusKeys, key) == t.entries[key];
    }
    assert key != l.monitor;
  }

  lemma SettledMonitorStays(l: Legacy, bar: Tree, monitor: string, key: string)
    requires Sound(l) && monitor in Under(bar, l.monitor) && Under(bar, l.monitor)[monitor].Table?
    requires Settled(l, Under(bar, l.monitor)[monitor], key)
    ensures var now := Under(FixBar(l)(bar), l.monitor);
            monitor in now && now[monitor].Table? && SameEntry(Under(bar, l.monitor)[monitor], now[monitor], key)
  {
    SettledStays(l, Under(bar, l.monitor)[monitor], key);
    FixedMonitor(l, bar, monitor);
  }

  /** Of a bar or a monitor: radii that are not negative stay, and so does the switch where none is. */
  lemma OtherRadiiStay(l: Legacy, root: Tree, p: Place, key: string)
    requires Sound(l) && !p.LocationPlace? && TableOf(l, root, p).Some? && TableOf(l, root, p).value.Table?
    requires Settled(l, TableOf(l, root, p).value, key)
    ensures var now := TableOf(l, Normalized(l, root), p);
            now.Some? && now.value.Table? && SameEntry(TableOf(l, root, p).value, now.value, key)
  {
    var bar := Under(root, l.bar)[p.bar];
    NormalizedBars(l, root, p.bar);
    if p.BarPlace? {
      SettledStays(l, bar, key);
    } else {
      SettledMonitorStays(l, bar, p.monitor, key);
    }
  }

  /** A location that is not unscheduled stays as it is. */
  lemma OtherLocationsStay(l: Legacy, root: Tree)
    requires Sound(l) && !LocationUnscheduled(l, root)
    ensures SameEntry(root, Normalized(l, root), l.location)
  {
    assert LocationUnscheduled(l, FixNegativeBarRadii(l, root)) == LocationUnscheduled(l, root);
  }

  // ----- what normalising does, setting by setting -----

  lemma Down(n: Node, key: string, q: Path)
    ensures Get(n, [key] + q) == if n.Table? && key in n.entries then Get(n.entries[key], q) else None
  {
    assert ([key] + q)[1..] == q;
  }

  lemma GetTwo(n: Node, a: string, b: string)
    ensures Get(n, [a, b])
         == if n.Table? && a in n.entries && n.entries[a].Table? && b in n.entries[a].entries then Some(n.entries[a].entries[b]) else None
  {
    assert [a, b] == [a] + [b] && [b] == [b] + [];
    Down(n, a, [b]);
    if n.Table? && a in n.entries {
      Down(n.entries[a], b, []);
    }
  }

  predicate IsText(n: Option<Node>) {
    n.Some? && n.value.Leaf? && n.value.value.Str? && n.value.value.s != ""
  }

  predicate IsNumber(n: Option<Node>) {
    n.Some? && n.value.Leaf? && (n.value.value.Int? || n.value.value.Float?)
  }

  /** A configuration from before the switch that has a sunset and a sunrise, and nothing else to tell where the sun is. */
  ghost predicate ReliesOnTimes(l: Legacy, root: Tree) {
    && Get(root, ["location", "custom_schedule"]) == None
    && IsText(Get(root, ["location", "sunset"])) && IsText(Get(root, ["location", "sunrise"]))
    && !IsText(Get(root, ["location", "address"]))
    && !(IsNumber(Get(root, ["location", "latitude"])) && IsNumber(Get(root, ["location", "longitude"])))
    && var auto := Get(root, ["location", "auto_locate"]); !(auto.Some? && auto.value.Leaf? && l.asBool(auto.value.value))
  }

  lemma UnscheduledRelies(l: Legacy, root: Tree)
    requires Actual(l)
    ensures LocationUnscheduled(l, root) <==> ReliesOnTimes(l, root)
  {
    GetTwo(root, "location", "custom_schedule");
    GetTwo(root, "location", "sunset");
    GetTwo(root, "location", "sunrise");
    GetTwo(root, "location", "address");
    GetTwo(root, "location", "latitude");
    GetTwo(root, "location", "longitude");
    GetTwo(root, "location", "auto_locate");
  }

  /** The switch is turned on for exactly these configurations, which are reported, and stays as it is in all others. */
  lemma ScheduleIsSwitchedOn(l: Legacy, root: Tree)
    requires Actual(l)
    ensures Get(Normalized(l, root), ["location", "custom_schedule"])
         == if ReliesOnTimes(l, root) then Some(Leaf(Bool(true))) else Get(root, ["location", "custom_schedule"])
    ensures IsLegacy(l, root, LocationPlace) <==> ReliesOnTimes(l, root)
  {
    ActualIsSound(l);
    UnscheduledRelies(l, root);
    GetTwo(root, "location", "custom_schedule");
    GetTwo(Normalized(l, root), "location", "custom_schedule");
    var fixed := FixNegativeBarRadii(l, root);
    assert "location" in fixed.entries <==> "location" in root.entries;
    assert "location" in fixed.entries ==> fixed.entries["location"] == root.entries["location"];
  }

  /** The path of a bar, or of a monitor of it. */
  function PathOf(p: Place): Path {
    match p
    case BarPlace(bar) => ["bar", bar]
    case MonitorPlace(bar, monitor) => ["bar", bar, "monitor", monitor]
    case LocationPlace => ["location"]
  }

  ghost predicate IsNegative(l: Legacy, n: Option<Node>, r: int) {
    r < 0 && n.Some? && n.value.Leaf? && l.asInt(n.value.value) == Some(r)
  }

  lemma PlaceIs(l: Legacy, root: Tree, p: Place)
    requires Actual(l)
    ensures TableOf(l, root, p) == Get(root, PathOf(p)) || (TableOf(l, root, p).None? && Get(root, PathOf(p)).None?)
  {
    match p {
      case LocationPlace => Down(root, "location", []);
      case BarPlace(bar) => GetTwo(root, "bar", bar);
      case MonitorPlace(bar, monitor) =>
        assert PathOf(p) == ["bar"] + ([bar] + ["monitor", monitor]);
        Down(root, "bar", [bar] + ["monitor", monitor]);
        if "bar" in root.entries {
          Down(root.entries["bar"], bar, ["monitor", monitor]);
          if bar in Under(root, "bar") {
            GetTwo(Under(root, "bar")[bar], "monitor", monitor);
          }
        }
    }
  }

  lemma {:induction false} GetJoins(n: Node, a: Path, b: Path)
    ensures Get(n, a + b) == if Get(n, a).Some? then Get(Get(n, a).value, b) else None
    decreases a
  {
    if a == [] {
      assert a + b == b;
    } else {
      assert (a + b)[1..] == a[1..] + b;
      if n.Table? && a[0] in n.entries {
        GetJoins(n.entries[a[0]], a[1..], b);
      }
    }
  }

  lemma AtPlace(l: Legacy, root: Tree, p: Place, key: string)
    requires Actual(l)
    ensures Get(root, PathOf(p) + [key])
         == if TableOf(l, root, p).Some? && TableOf(l, root, p).value.Table? && key in TableOf(l, root, p).value.entries
            then Some(TableOf(l, root, p).value.entries[key]) else None
  {
    GetJoins(root, PathOf(p), [key]);
    PlaceIs(l, root, p);
    if TableOf(l, root, p).Some? {
      Down(TableOf(l, root, p).value, key, []);
      assert [key] + [] == [key];
    }
  }

  lemma NegativeIsReported(l: Legacy, root: Tree, p: Place, key: string, r: int)
    requires Actual(l) && !p.LocationPlace? && key in l.radiusKeys && IsNegative(l, Get(root, PathOf(p) + [key]), r)
    ensures NegativeAt(l, root, p) && IsLegacy(l, root, p)
    ensures Negative(l, TableOf(l, root, p).value, key) && l.asInt(TableOf(l, root, p).value.entries[key].value) == Some(r)
  {
    AtPlace(l, root, p, key);
    assert Negative(l, TableOf(l, root, p).value, key);
  }

  lemma PositiveIsThere(l: Legacy, was: Tree, now: Tree, p: Place, key: string, r: int)
    requires Actual(l) && Negative(l, was, key) && l.asInt(was.entries[key].value) == Some(r)
    requires TableOf(l, now, p).Some? && TableOf(l, now, p).value.Table? && MadePositive(l, was, TableOf(l, now, p).value, key)
    ensures Get(now, PathOf(p) + [key]) == Some(Leaf(Int(if -r < 500 then -r else 500)))
    ensures Get(now, PathOf(p) + ["concave_edge_corners"]) == Some(Leaf(Bool(true)))
  {
    AtPlace(l, now, p, key);
    AtPlace(l, now, p, "concave_edge_corners");
  }

  /** Of every bar and every monitor: a negative radius becomes its magnitude, at most 500, the corners turn concave, and
      the place is reported. */
  lemma RadiusIsMadePositive(l: Legacy, root: Tree, p: Place, key: string, r: int)
    requires Actual(l) && !p.LocationPlace? && key in l.radiusKeys && IsNegative(l, Get(root, PathOf(p) + [key]), r)
    ensures Get(Normalized(l, root), PathOf(p) + [key]) == Some(Leaf(Int(if -r < 500 then -r else 500)))
    ensures Get(Normalized(l, root), PathOf(p) + ["concave_edge_corners"]) == Some(Leaf(Bool(true)))
    ensures IsLegacy(l, root, p)
  {
    ActualIsSound(l);
    NegativeIsReported(l, root, p, key, r);
    NegativeRadiiBecomePositive(l, root, p, key);
    PositiveIsThere(l, TableOf(l, root, p).value, Normalized(l, root), p, key, r);
  }

  // ----- versions -----

  /** A migration of the overrides to a version. */
  datatype Migration = Migration(toVersion: int, apply: Tree -> Tree)

  function ConfigMigrations(l: Legacy): seq<Migration> {
    [Migration(1, t => FixNegativeBarRadii(l, t)), Migration(2, t => FixSchedule(l, t))]
  }

  const CURRENT_VERSION: int := 2
  const VERSION_KEY := "config_version"
  const INT_MAX: int := 0x7fff_ffff

  /** The version a tree was written with: none is version 0; nothing when it is not a version known. */
  function StoredVersion(l: Legacy, root: Tree): (version: Option<int>)
    ensures version.Some? ==> 0 <= version.value <= CURRENT_VERSION
  {
    if VERSION_KEY !in root.entries then Some(0)
    else if root.entries[VERSION_KEY].Table? then None
    else
      var value := l.asInt(root.entries[VERSION_KEY].value);
      if value.None? || value.value < 0 || value.value > INT_MAX || value.value > CURRENT_VERSION then None
      else value
  }

  /** A version that is written as a number is read as that number, one that the program does not know is refused, and a
      tree that says nothing is of version 0. */
  lemma VersionIsRead(l: Legacy, entries: map<string, Node>, v: int)
    requires Sound(l)
    ensures StoredVersion(l, Table(entries - {VERSION_KEY})) == Some(0)
    ensures StoredVersion(l, Table(entries[VERSION_KEY := Leaf(Int(v))])) == if 0 <= v <= CURRENT_VERSION then Some(v) else None
    ensures StoredVersion(l, Table(entries[VERSION_KEY := Table(entries)])) == None
  {
  }

  lemma UnreadableVersion(l: Legacy, entries: map<string, Node>, value: Value)
    ensures StoredVersion(l, Table(entries[VERSION_KEY := Leaf(value)])).Some? ==>
      StoredVersion(l, Table(entries[VERSION_KEY := Leaf(value)])) == l.asInt(value)
  {
  }

  /** The migrations past a version, one after another. */
  function Pending(root: Tree, stored: int, migrations: seq<Migration>): Tree {
    if migrations == [] then root
    else
      var before, last := Pending(root, stored, migrations[..|migrations| - 1]), migrations[|migrations| - 1];
      if last.toVersion <= stored then before else last.apply(before)
  }

  predicate Ascending(migrations: seq<Migration>) {
    forall i, j :: 0 <= i < j < |migrations| ==> migrations[i].toVersion < migrations[j].toVersion
  }

  /** The version reached: that of the last migration, or the stored one if it is later. */
  function Reached(stored: int, migrations: seq<Migration>): int {
    if migrations != [] && migrations[|migrations| - 1].toVersion > stored then migrations[|migrations| - 1].toVersion else stored
  }

  method ApplyPendingConfigMigrations(root0: Tree, storedVersion: int, migrations: seq<Migration>)
    returns (root: Tree, appliedVersion: int)
    requires Ascending(migrations)
    ensures root == Pending(root0, storedVersion, migrations) && appliedVersion == Reached(storedVersion, migrations)
  {
    root, appliedVersion := root0, storedVersion;
    var i := 0;
    while i < |migrations|
      invariant 0 <= i <= |migrations|
      invariant root == Pending(root0, storedVersion, migrations[..i])
      invariant appliedVersion == Reached(storedVersion, migrations[..i])
    {
      assert migrations[..i + 1][..i] == migrations[..i];
      var migration := migrations[i];
      i := i + 1;
      if migration.toVersion <= storedVersion {
        continue;
      }
      root := migration.apply(root);
      appliedVersion := migration.toVersion;
    }
    assert migrations[..i] == migrations;
  }

  lemma {:induction false} NothingPending(root: Tree, stored: int, migrations: seq<Migration>)
    requires forall m <- migrations :: m.toVersion <= stored
    ensures Pending(root, stored, migrations) == root
    decreases migrations
  {
    if migrations != [] {
      NothingPending(root, stored, migrations[..|migrations| - 1]);
    }
  }

  /** Nothing is pending at the version reached. */
  lemma MigratingAgainIsIdentity(root: Tree, stored: int, migrations: seq<Migration>)
    requires Ascending(migrations)
    ensures Pending(root, Reached(stored, migrations), migrations) == root
    ensures Reached(Reached(stored, migrations), migrations) == Reached(stored, migrations)
  {
    NothingPending(root, Reached(stored, migrations), migrations);
  }

  /** An upgrade by way of an older release ends where a direct one does. */
  lemma UpgradesCompose(root: Tree, stored: int, older: nat, migrations: seq<Migration>)
    requires Ascending(migrations) && older <= |migrations|
    ensures var between := migrations[..older];
            Pending(Pending(root, stored, between), Reached(stored, between), migrations) == Pending(root, stored, migrations)
  {
    UpgradeFrom(root, stored, older, |migrations|, migrations);
    assert migrations[..|migrations|] == migrations;
  }

  lemma {:induction false} UpgradeFrom(root: Tree, stored: int, older: nat, n: nat, migrations: seq<Migration>)
    requires Ascending(migrations) && older <= n <= |migrations|
    ensures var between := migrations[..older];
            Pending(Pending(root, stored, between), Reached(stored, between), migrations[..n]) == Pending(root, stored, migrations[..n])
    decreases n
  {
    var between := migrations[..older];
    if n == older {
      NothingPending(Pending(root, stored, between), Reached(stored, between), between);
    } else {
      assert migrations[..n][..n - 1] == migrations[..n - 1];
      UpgradeFrom(root, stored, older, n - 1, migrations);
    }
  }
}
