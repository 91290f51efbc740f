/** The state behind zonemodel/model.go as a value: a table of present zones and a graph of zone
    records linked by parent pointers and child maps. `R` stands for the identity of a zone
    object; the classes in ZoneModel.dfy instantiate it with their references.

    `Add` and `Remove` say what `AddZone` and `RemoveZone` do to that state. `Filing` tells the
    code as written (a child is filed under its parent's name and a removed zone stays linked)
    from the evident intent. */
module ZoneGraph {
  import opened Wrappers
  import opened DomainNames

  datatype ZoneKey = ZoneKey(cluster: string, namespace: string, name: string) {
    function For(n: string): ZoneKey {
      this.(name := n)
    }
  }

  /** What `AddZone` reads of a HostedZone object. */
  datatype HostedZone = HostedZone(
    namespace: string,
    name: string,
    resourceVersion: string,
    domainNames: seq<string>,
    parentRef: string)

  /** All zone objects ever created, a column for each field, and the table of the known ones.
      The domain of `key` is the set of objects. */
  datatype State<R(==)> = State(
    zones: map<ZoneKey, R>,
    key: map<R, ZoneKey>,
    parent: map<R, Option<R>>,
    parentName: map<R, string>,
    children: map<R, map<string, R>>,
    names: map<R, seq<string>>,
    serial: map<R, nat>)
  {
    /** The zone designated by the `parentName` of `z`. */
    function ParentKey(z: R): ZoneKey
      requires z in key && z in parentName
    {
      key[z].For(parentName[z])
    }

    predicate Refers(z: R, k: ZoneKey)
      requires z in key && z in parentName
    {
      parentName[z] != "" && ParentKey(z) == k
    }
  }

  datatype Filing = AsWritten | Corrected

  // ----- serial numbers -----------------------------------------------------------------------

  function DecimalDigits(s: string): (n: nat)
    requires forall i | 0 <= i < |s| :: '0' <= s[i] <= '9'
  {
    if s == "" then 0 else 10 * DecimalDigits(s[..|s| - 1]) + (s[|s| - 1] as int - '0' as int)
  }

  /** strconv.ParseUint(s, 10, 64). */
  function ParseUint(s: string): Option<nat> {
    if s != "" && (forall i | 0 <= i < |s| :: '0' <= s[i] <= '9') && DecimalDigits(s) < 0x1_0000_0000_0000_0000
    then Some(DecimalDigits(s)) else None
  }

  const FALLBACK_SERIAL: nat := 653432456

  function SerialOf(resourceVersion: string): nat {
    match ParseUint(resourceVersion)
    case Some(id) => id % 0x1_0000_0000
    case None => FALLBACK_SERIAL
  }

  function Decimal(n: nat): string {
    (if n < 10 then "" else Decimal(n / 10)) + [(n % 10 + '0' as int) as char]
  }

  lemma {:induction false} DigitsOfDecimal(n: nat)
    ensures Decimal(n) != "" && forall i | 0 <= i < |Decimal(n)| :: '0' <= Decimal(n)[i] <= '9'
    ensures DecimalDigits(Decimal(n)) == n
    decreases n
  {
    var s := Decimal(n);
    var d := [(n % 10 + '0' as int) as char];
    if n < 10 {
      assert s == d && s[..0] == "";
    } else {
      DigitsOfDecimal(n / 10);
      assert s == Decimal(n / 10) + d && s[..|s| - 1] == Decimal(n / 10);
    }
  }

  function Zeros(k: nat): (r: string)
    ensures |r| == k && forall i | 0 <= i < k :: r[i] == '0'
  {
    if k == 0 then "" else Zeros(k - 1) + "0"
  }

  /** Every string of digits is a number in decimal notation, behind zeros maybe. */
  lemma {:induction false} DecimalOfDigits(s: string) returns (k: nat)
    requires s != "" && forall i | 0 <= i < |s| :: '0' <= s[i] <= '9'
    ensures s == Zeros(k) + Decimal(DecimalDigits(s))
    decreases |s|
  {
    var n := |s| - 1;
    var t, d := s[..n], s[n] as int - '0' as int;
    assert s == t + [s[n]];
    DecimalNext(DecimalDigits(t), d);
    if n == 0 {
      k := 0;
    } else {
      k := DecimalOfDigits(t);
      if DecimalDigits(t) == 0 {
        assert Decimal(0) == "0";
        k := k + 1;
      } else {
        assert s == Zeros(k) + (Decimal(DecimalDigits(t)) + [s[n]]);
      }
    }
  }

  lemma DecimalNext(m: nat, d: nat)
    requires d < 10
    ensures Decimal(10 * m + d) == (if m == 0 then "" else Decimal(m)) + [(d + '0' as int) as char]
  {
  }

  lemma {:induction false} ZerosInFront(k: nat, s: string)
    requires forall i | 0 <= i < |s| :: '0' <= s[i] <= '9'
    ensures DecimalDigits(Zeros(k) + s) == DecimalDigits(s)
    decreases k + |s|
  {
    var all := Zeros(k) + s;
    if s != "" {
      var n := |s| - 1;
      assert all[..|all| - 1] == Zeros(k) + s[..n] && all[|all| - 1] == s[n];
      ZerosInFront(k, s[..n]);
    } else if k > 0 {
      assert all[..|all| - 1] == Zeros(k - 1) + "" && all[k - 1] == '0';
      ZerosInFront(k - 1, "");
    }
  }

  /** A version number that fits 64 bits is taken modulo 2^32, zeros in front or not; a larger one
      counts as unreadable. */
  lemma SerialOfVersion(k: nat, n: nat)
    ensures SerialOf(Zeros(k) + Decimal(n)) ==
      if n < 0x1_0000_0000_0000_0000 then n % 0x1_0000_0000 else FALLBACK_SERIAL
  {
    var s := Zeros(k) + Decimal(n);
    DigitsOfDecimal(n);
    ZerosInFront(k, Decimal(n));
    forall i | 0 <= i < |s| ensures '0' <= s[i] <= '9' {
      if i >= k { assert s[i] == Decimal(n)[i - k]; }
    }
  }

  /** Everything else is unreadable: whatever does not serve as the fallback is such a number. */
  lemma SerialIsVersion(s: string) returns (k: nat, n: nat)
    ensures SerialOf(s) != FALLBACK_SERIAL ==> s == Zeros(k) + Decimal(n) && n < 0x1_0000_0000_0000_0000
  {
    k, n := 0, 0;
    if SerialOf(s) != FALLBACK_SERIAL {
      n := DecimalDigits(s);
      k := DecimalOfDigits(s);
    }
  }

  function ZoneNames(zone: HostedZone): seq<string> {
    if zone.parentRef == "" then
      seq(|zone.domainNames|, i requires 0 <= i < |zone.domainNames| => Fqdn(zone.domainNames[i]))
    else
      seq(|zone.domainNames|, i requires 0 <= i < |zone.domainNames| => Rdn(zone.domainNames[i]))
  }

  /** What the model keeps of an object: its key, the reference to its parent, the serial number
      and the normalised names. */
  datatype ZoneData = ZoneData(key: ZoneKey, parentRef: string, serial: nat, names: seq<string>) {
    function ParentKey(): ZoneKey {
      key.For(parentRef)
    }
  }

  function DataOf(cluster: string, zone: HostedZone): ZoneData {
    ZoneData(ZoneKey(cluster, zone.namespace, zone.name), zone.parentRef,
             SerialOf(zone.resourceVersion), ZoneNames(zone))
  }

  // ----- climbing parent pointers -------------------------------------------------------------

  /** The zone reached after `n` steps upwards from `o`. */
  ghost function Climb<R>(parent: map<R, Option<R>>, o: Option<R>, n: nat): Option<R>
    decreases n
  {
    if n == 0 || o.None? || o.value !in parent then o else Climb(parent, parent[o.value], n - 1)
  }

  /** Climbing from `o` comes to the top after finitely many steps. */
  ghost predicate Ends<R>(parent: map<R, Option<R>>, o: Option<R>) {
    exists n: nat :: Climb(parent, o, n) == None
  }

  /** `z` is met when climbing from `o`. */
  ghost predicate Above<R>(parent: map<R, Option<R>>, o: Option<R>, z: R) {
    exists n: nat :: Climb(parent, o, n) == Some(z)
  }

  ghost predicate Acyclic<R>(parent: map<R, Option<R>>) {
    forall z {:trigger Ends(parent, Some(z))} | z in parent :: Ends(parent, Some(z))
  }

  lemma {:induction false} ClimbAdd<R>(parent: map<R, Option<R>>, o: Option<R>, m: nat, n: nat)
    ensures Climb(parent, o, m + n) == Climb(parent, Climb(parent, o, m), n)
    decreases m
  {
    if m > 0 && o.Some? && o.value in parent {
      ClimbAdd(parent, parent[o.value], m - 1, n);
    }
  }

  /** Coming back to the start after some steps means climbing for ever. */
  lemma {:induction false} ReturnNeverEnds<R>(parent: map<R, Option<R>>, o: Option<R>, m: nat, n: nat)
    requires o.Some? && m > 0 && Climb(parent, o, m) == o
    ensures Climb(parent, o, n) != None
    decreases n
  {
    if n >= m {
      ClimbAdd(parent, o, m, n - m);
      ReturnNeverEnds(parent, o, m, n - m);
    } else {
      ClimbAdd(parent, o, n, m - n);
    }
  }

  // ----- well-formed states -------------------------------------------------------------------

  ghost predicate Columns<R>(st: State<R>) {
    st.key.Keys == st.parent.Keys == st.parentName.Keys == st.children.Keys == st.names.Keys == st.serial.Keys
  }

  ghost predicate Present<R>(st: State<R>, z: R) {
    z in st.key && st.key[z] in st.zones && st.zones[st.key[z]] == z
  }

  /** Pointers stay among the objects and zones are listed under their own keys. */
  ghost predicate Closed<R>(st: State<R>) {
    && Columns(st)
    && (forall k {:trigger st.zones[k]} | k in st.zones :: st.zones[k] in st.key && st.key[st.zones[k]] == k)
    && (forall z {:trigger st.parent[z].value} | z in st.key && st.parent[z].Some? :: st.parent[z].value in st.key)
    && (forall z, n {:trigger st.children[z][n]} | z in st.key && n in st.children[z] :: st.children[z][n] in st.key)
  }

  /** A zone whose `parentName` designates a known zone points to that very object, and no parent
      pointer leads anywhere else than the `parentName` says. */
  ghost predicate Coherent<R>(st: State<R>)
    requires Closed(st)
  {
    && (forall k {:trigger st.parentName[st.zones[k]]} {:trigger st.parent[st.zones[k]]} | k in st.zones ::
          var z := st.zones[k];
          st.parentName[z] != "" && st.ParentKey(z) in st.zones ==> st.parent[z] == Some(st.zones[st.ParentKey(z)]))
    && (forall z {:trigger st.parent[z].value} | z in st.key && st.parent[z].Some? ::
          st.Refers(z, st.key[st.parent[z].value]))
  }

  /** `children` of a known zone holds exactly the known zones whose parent it is, each once and
      under its own name. */
  ghost predicate ExactChildren<R>(st: State<R>)
    requires Closed(st)
  {
    && (forall k, n {:trigger st.children[st.zones[k]][n]} | k in st.zones && n in st.children[st.zones[k]] ::
          Listed(st, st.zones[k], n, st.children[st.zones[k]][n]))
    && (forall k {:trigger st.parent[st.zones[k]]} | k in st.zones :: Lists(st, k))
  }

  ghost predicate Listed<R>(st: State<R>, p: R, n: string, c: R)
    requires Columns(st) && c in st.key
  {
    Present(st, c) && st.parent[c] == Some(p) && st.key[c].name == n
  }

  ghost predicate Lists<R>(st: State<R>, k: ZoneKey)
    requires Closed(st) && k in st.zones
  {
    var o := st.parent[st.zones[k]];
    o.Some? && Present(st, o.value) ==>
      k.name in st.children[o.value] && st.children[o.value][k.name] == st.zones[k]
  }

  ghost predicate Valid<R>(st: State<R>) {
    Closed(st) && Coherent(st)
  }

  // ----- AddZone ------------------------------------------------------------------------------

  /** A known zone waiting for the zone `key` as its parent. */
  ghost predicate Adopted<R>(st: State<R>, key: ZoneKey, z: R)
    requires Columns(st)
  {
    Present(st, z) && st.Refers(z, key)
  }

  /** All zones waiting for the zone `key`, by name (lines 99-106). */
  ghost function Adoptees<R>(st: State<R>, key: ZoneKey): map<string, R>
    requires Closed(st)
  {
    map n | n in KnownNames(st.zones) && key.For(n) in st.zones && st.Refers(st.zones[key.For(n)], key) ::
      st.zones[key.For(n)]
  }

  ghost function KnownNames<R>(zones: map<ZoneKey, R>): (names: set<string>)
    ensures forall k {:trigger k in zones} | k in zones :: k.name in names
  {
    set k | k in zones :: k.name
  }

  /** The parent pointers once the new zone `id` has adopted the zones waiting for it. */
  ghost function AdoptedParents<R>(st: State<R>, id: R, key: ZoneKey): map<R, Option<R>>
    requires Closed(st)
  {
    map z | z in st.key.Keys + {id} ::
      if z == id then None else if Adopted(st, key, z) then Some(id) else st.parent[z]
  }

  /** The zone is known afterwards; a new one has taken over the children waiting for it. */
  ghost function Enter<R>(st: State<R>, id: R, key: ZoneKey): State<R>
    requires Closed(st)
  {
    if key in st.zones then st
    else State(st.zones[key := id], st.key[id := key], AdoptedParents(st, id, key), st.parentName[id := ""],
               st.children[id := Adoptees(st, key)], st.names[id := []], st.serial[id := 0])
  }

  ghost function ParentOf<R>(st: State<R>, d: ZoneData): Option<R> {
    if d.parentRef != "" && d.ParentKey() in st.zones then Some(st.zones[d.ParentKey()]) else None
  }

  /** The name under which a zone is filed with its parent (line 127). */
  function FileName(d: ZoneData, filing: Filing): string {
    if filing.AsWritten? then d.parentRef else d.key.name
  }

  /** A zone leaving its parent is struck from the old parent's children (lines 114-118). */
  ghost function Unlinked<R>(st: State<R>, d: ZoneData): map<R, map<string, R>>
    requires Closed(st) && d.key in st.zones
  {
    var o := st.parent[st.zones[d.key]];
    if o.Some? && st.key[o.value].name != d.parentRef
    then st.children[o.value := st.children[o.value] - {d.key.name}] else st.children
  }

  /** Then it is filed with the new one (line 127). */
  ghost function Refiled<R>(st: State<R>, d: ZoneData, filing: Filing): map<R, map<string, R>>
    requires Closed(st) && d.key in st.zones
  {
    var kids := Unlinked(st, d);
    var o := ParentOf(st, d);
    if o.Some? then kids[o.value := kids[o.value][FileName(d, filing) := st.zones[d.key]]] else kids
  }

  /** A known zone moves below the parent it names and takes over the object's data. */
  ghost function Relink<R>(st: State<R>, d: ZoneData, filing: Filing): State<R>
    requires Closed(st) && d.key in st.zones
  {
    var t := st.zones[d.key];
    State(st.zones, st.key, st.parent[t := ParentOf(st, d)], st.parentName[t := d.parentRef],
          Refiled(st, d, filing), st.names[t := d.names], st.serial[t := d.serial])
  }

  /** The state once all pointers are set and only the serial numbers above are still to come. */
  ghost function Link<R>(st: State<R>, id: R, d: ZoneData, filing: Filing): State<R>
    requires Closed(st) && (d.key in st.zones || id !in st.key)
  {
    EnterClosed(st, id, d.key);
    Relink(Enter(st, id, d.key), d, filing)
  }

  /** Every zone above takes over the serial number (lines 139-142). */
  ghost function Bump<R>(st: State<R>, o: Option<R>, serial: nat): State<R> {
    st.(serial := map z | z in st.serial :: if Above(st.parent, o, z) then serial else st.serial[z])
  }

  ghost function Add<R>(st: State<R>, id: R, d: ZoneData, filing: Filing): State<R>
    requires Closed(st) && (d.key in st.zones || id !in st.key)
  {
    var st1 := Link(st, id, d, filing);
    Bump(st1, ParentOf(st1, d), d.serial)
  }

  // ----- RemoveZone ---------------------------------------------------------------------------

  ghost function Remove<R>(st: State<R>, key: ZoneKey, filing: Filing): State<R>
    requires Closed(st)
  {
    if key !in st.zones then st
    else
      var o := st.parent[st.zones[key]];
      st.(zones := st.zones - {key},
          children := if filing.Corrected? && o.Some?
                      then st.children[o.value := st.children[o.value] - {key.name}] else st.children)
  }

  // ----- what every operation keeps -----------------------------------------------------------

  ghost predicate AreAdoptees<R>(st: State<R>, key: ZoneKey, kids: map<string, R>)
    requires Closed(st)
  {
    && (forall n {:trigger n in kids} ::
          n in kids <==> key.For(n) in st.zones && st.Refers(st.zones[key.For(n)], key))
    && (forall n {:trigger kids[n]} | n in kids :: kids[n] == st.zones[key.For(n)])
  }

  ghost predicate AreAdoptedParents<R>(st: State<R>, id: R, key: ZoneKey, ups: map<R, Option<R>>)
    requires Closed(st)
  {
    && ups.Keys == st.key.Keys + {id} && ups[id] == None
    && forall z {:trigger ups[z]} | z in st.key ::
         ups[z] == if Adopted(st, key, z) then Some(id) else st.parent[z]
  }

  /** `Enter` for a new zone, field by field. */
  ghost predicate Entered<R>(st: State<R>, st1: State<R>, id: R, key: ZoneKey)
    requires Closed(st)
  {
    && key !in st.zones && id !in st.key && id in st1.children
    && st1.zones == st.zones[key := id]
    && st1.key == st.key[id := key]
    && st1.parentName == st.parentName[id := ""]
    && st1.names == st.names[id := []]
    && st1.serial == st.serial[id := 0]
    && st1.children == st.children[id := st1.children[id]]
    && Columns(st1)
    && AreAdoptees(st, key, st1.children[id])
    && AreAdoptedParents(st, id, key, st1.parent)
  }

  lemma AdopteesAre<R>(st: State<R>, key: ZoneKey)
    requires Closed(st)
    ensures AreAdoptees(st, key, Adoptees(st, key))
  {
    forall n | key.For(n) in st.zones ensures n in KnownNames(st.zones) {
      assert key.For(n).name == n;
    }
  }

  lemma AdoptedParentsAre<R>(st: State<R>, id: R, key: ZoneKey)
    requires Closed(st) && id !in st.key
    ensures AreAdoptedParents(st, id, key, AdoptedParents(st, id, key))
  {
  }

  lemma EnterEnters<R>(st: State<R>, id: R, key: ZoneKey)
    requires Closed(st) && key !in st.zones && id !in st.key
    ensures Entered(st, Enter(st, id, key), id, key)
  {
    AdopteesAre(st, key);
    AdoptedParentsAre(st, id, key);
    AssembleEntered(st, id, key, Adoptees(st, key), AdoptedParents(st, id, key));
  }

  lemma AssembleEntered<R>(st: State<R>, id: R, key: ZoneKey, kids: map<string, R>, ups: map<R, Option<R>>)
    requires Closed(st) && key !in st.zones && id !in st.key
    requires AreAdoptees(st, key, kids) && AreAdoptedParents(st, id, key, ups)
    ensures Entered(st, State(st.zones[key := id], st.key[id := key], ups, st.parentName[id := ""],
                              st.children[id := kids], st.names[id := []], st.serial[id := 0]), id, key)
  {
    ExtendsKeys(st.key, id, key);
    ExtendsKeys(st.parentName, id, "");
    ExtendsKeys(st.children, id, kids);
    ExtendsKeys(st.names, id, []);
    ExtendsKeys(st.serial, id, 0);
  }

  lemma ExtendsKeys<K, V>(m: map<K, V>, k: K, v: V)
    ensures m[k := v].Keys == m.Keys + {k}
  {
  }

  lemma EnteredClosed<R>(st: State<R>, st1: State<R>, id: R, key: ZoneKey)
    requires Closed(st) && Entered(st, st1, id, key)
    ensures Closed(st1)
  {
    forall k | k in st1.zones ensures st1.zones[k] in st1.key && st1.key[st1.zones[k]] == k {
      if k != key { assert st.zones[k] in st.key; }
    }
    forall z | z in st1.key && st1.parent[z].Some? ensures st1.parent[z].value in st1.key {
      if z != id && !Adopted(st, key, z) { assert st1.parent[z].value == st.parent[z].value; }
    }
    forall z, n | z in st1.key && n in st1.children[z] ensures st1.children[z][n] in st1.key {
      if z != id { assert st1.children[z][n] == st.children[z][n]; }
    }
  }

  lemma EnteredPoints<R>(st: State<R>, st1: State<R>, id: R, key: ZoneKey, k: ZoneKey)
    requires Valid(st) && Entered(st, st1, id, key) && k in st.zones
    ensures var z := st.zones[k];
      st1.zones[k] == z && st1.parentName[z] == st.parentName[z] && st1.ParentKey(z) == st.ParentKey(z)
      && (st.parentName[z] != "" && st.ParentKey(z) in st1.zones ==> st1.parent[z] == Some(st1.zones[st.ParentKey(z)]))
  {
    EnteredSame(st, st1, id, key, k);
    AdoptedPoints(st, id, key, st1.parent, k);
  }

  lemma EnteredSame<R>(st: State<R>, st1: State<R>, id: R, key: ZoneKey, k: ZoneKey)
    requires Closed(st) && Entered(st, st1, id, key) && k in st.zones
    ensures var z := st.zones[k];
      st1.zones[k] == z && z in st1.key && z in st1.parentName && st1.parentName[z] == st.parentName[z]
      && st1.ParentKey(z) == st.ParentKey(z)
  {
    assert st.zones[k] in st.key && st.zones[k] != id && k != key;
  }

  lemma AdoptedPoints<R>(st: State<R>, id: R, key: ZoneKey, ups: map<R, Option<R>>, k: ZoneKey)
    requires Valid(st) && AreAdoptedParents(st, id, key, ups) && key !in st.zones && k in st.zones
    ensures var z := st.zones[k];
      var pk := st.ParentKey(z);
      z in ups && (st.parentName[z] != "" ==>
        (pk == key ==> ups[z] == Some(id)) && (pk in st.zones ==> ups[z] == Some(st.zones[pk])))
  {
    var z := st.zones[k];
    assert Present(st, z);
  }

  lemma EnteredRefers<R>(st: State<R>, st1: State<R>, id: R, key: ZoneKey, z: R)
    requires Valid(st) && Closed(st1) && Entered(st, st1, id, key) && z in st1.key && st1.parent[z].Some?
    ensures st1.Refers(z, st1.key[st1.parent[z].value])
  {
    assert z in st.key && z != id;
    if !Adopted(st, key, z) {
      assert st1.parent[z].value == st.parent[z].value;
    }
  }

  lemma EnteredCoherent<R>(st: State<R>, st1: State<R>, id: R, key: ZoneKey)
    requires Valid(st) && Closed(st1) && Entered(st, st1, id, key)
    ensures Coherent(st1)
  {
    forall k | k in st1.zones
      ensures var z := st1.zones[k];
        st1.parentName[z] != "" && st1.ParentKey(z) in st1.zones ==> st1.parent[z] == Some(st1.zones[st1.ParentKey(z)])
    {
      if k != key { EnteredPoints(st, st1, id, key, k); }
    }
    forall z | z in st1.key && st1.parent[z].Some? ensures st1.Refers(z, st1.key[st1.parent[z].value]) {
      EnteredRefers(st, st1, id, key, z);
    }
  }

  lemma EnterClosed<R>(st: State<R>, id: R, key: ZoneKey)
    requires Closed(st) && (key in st.zones || id !in st.key)
    ensures Closed(Enter(st, id, key)) && key in Enter(st, id, key).zones
  {
    if key !in st.zones {
      EnterEnters(st, id, key);
      EnteredClosed(st, Enter(st, id, key), id, key);
    }
  }

  lemma EnterKeeps<R>(st: State<R>, id: R, key: ZoneKey)
    requires Valid(st) && (key in st.zones || id !in st.key)
    ensures Valid(Enter(st, id, key)) && key in Enter(st, id, key).zones
  {
    EnterClosed(st, id, key);
    if key !in st.zones {
      EnterEnters(st, id, key);
      EnteredCoherent(st, Enter(st, id, key), id, key);
    }
  }

  lemma RelinkClosed<R>(st: State<R>, d: ZoneData, filing: Filing)
    requires Closed(st) && d.key in st.zones
    ensures Closed(Relink(st, d, filing))
  {
    var st1 := Relink(st, d, filing);
    forall z, n | z in st1.key && n in st1.children[z] ensures st1.children[z][n] in st1.key {
      RefiledAt(st, d, filing, z);
    }
  }

  /** The children of any zone after refiling. */
  lemma RefiledAt<R>(st: State<R>, d: ZoneData, filing: Filing, z: R)
    requires Closed(st) && d.key in st.zones && z in st.key
    ensures Refiled(st, d, filing).Keys == st.key.Keys
    ensures Refiled(st, d, filing)[z] ==
      var left := if st.parent[st.zones[d.key]] == Some(z) && st.key[z].name != d.parentRef
                  then st.children[z] - {d.key.name} else st.children[z];
      if ParentOf(st, d) == Some(z) then left[FileName(d, filing) := st.zones[d.key]] else left
  {
  }

  lemma RelinkKeeps<R>(st: State<R>, d: ZoneData, filing: Filing)
    requires Valid(st) && d.key in st.zones
    ensures Valid(Relink(st, d, filing))
  {
    var st1 := Relink(st, d, filing);
    RelinkClosed(st, d, filing);
    forall k | k in st1.zones
      ensures var z := st1.zones[k];
        st1.parentName[z] != "" && st1.ParentKey(z) in st1.zones ==> st1.parent[z] == Some(st1.zones[st1.ParentKey(z)])
    {
      if k != d.key {
        var z := st.zones[k];
        assert st1.parentName[z] == st.parentName[z] && st1.ParentKey(z) == st.ParentKey(z);
      }
    }
    forall z | z in st1.key && st1.parent[z].Some? ensures st1.Refers(z, st1.key[st1.parent[z].value]) {
      if z != st.zones[d.key] {
        assert st1.parent[z].value == st.parent[z].value;
      }
    }
  }

  lemma BumpKeeps<R>(st: State<R>, o: Option<R>, serial: nat)
    requires Valid(st)
    ensures Valid(Bump(st, o, serial))
  {
    assert Closed(Bump(st, o, serial));
  }

  /** Every call of `AddZone` keeps the parent pointers coherent, as written and as intended. */
  lemma AddKeeps<R>(st: State<R>, id: R, d: ZoneData, filing: Filing)
    requires Valid(st) && (d.key in st.zones || id !in st.key)
    ensures Valid(Add(st, id, d, filing))
  {
    EnterKeeps(st, id, d.key);
    RelinkKeeps(Enter(st, id, d.key), d, filing);
    BumpKeeps(Link(st, id, d, filing), ParentOf(Link(st, id, d, filing), d), d.serial);
  }

  /** So does every call of `RemoveZone`. */
  lemma RemoveKeeps<R>(st: State<R>, key: ZoneKey, filing: Filing)
    requires Valid(st)
    ensures Valid(Remove(st, key, filing))
  {
    assert Closed(Remove(st, key, filing));
  }
}
