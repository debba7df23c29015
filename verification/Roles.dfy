/** chaincode/hrbac/roles.go and zones.go: roles, inherited permissions and zone lists. */
module Roles {
  import opened Wrappers
  import opened Text

  datatype Role = Admin | Gateway | Farmer | Agronomist | Certifier | SupplyChain | Sensor

  /** A permission name. Any string may be asked for; names outside the table are `Other`. */
  datatype Permission =
    | ReadOwn | ReadZone | ReadAll | WriteSensor | ControlZone | ControlAll
    | ReadAudit | ManageRoles | IssueCrossZone | AdminAll
    | Other(name: string)

  function ParseRole(name: string): Option<Role>
  {
    if name == "Admin" then Some(Admin)
    else if name == "Gateway" then Some(Gateway)
    else if name == "Farmer" then Some(Farmer)
    else if name == "Agronomist" then Some(Agronomist)
    else if name == "Certifier" then Some(Certifier)
    else if name == "SupplyChain" then Some(SupplyChain)
    else if name == "Sensor" then Some(Sensor)
    else None
  }

  function ParsePermission(name: string): Permission
  {
    if name == "ReadOwn" then ReadOwn
    else if name == "ReadZone" then ReadZone
    else if name == "ReadAll" then ReadAll
    else if name == "WriteSensor" then WriteSensor
    else if name == "ControlZone" then ControlZone
    else if name == "ControlAll" then ControlAll
    else if name == "ReadAudit" then ReadAudit
    else if name == "ManageRoles" then ManageRoles
    else if name == "IssueCrossZone" then IssueCrossZone
    else if name == "AdminAll" then AdminAll
    else Other(name)
  }

  function RolePermissions(r: Role): seq<Permission>
  {
    match r
    case SupplyChain => [ReadOwn]
    case Certifier => [ReadZone, ReadAudit]
    case Agronomist => [ControlZone, IssueCrossZone]
    case Farmer => [WriteSensor]
    case Sensor => [WriteSensor]
    case Gateway => [ReadZone, ControlZone]
    case Admin => [ReadAll, ControlAll, ManageRoles, AdminAll]
  }

  function Ancestors(r: Role): seq<Role>
  {
    match r
    case SupplyChain => [SupplyChain]
    case Certifier => [Certifier, SupplyChain]
    case Agronomist => [Agronomist, Certifier, SupplyChain]
    case Farmer => [Farmer, Agronomist, Certifier, SupplyChain]
    case Sensor => [Sensor]
    case Gateway => [Gateway, Sensor]
    case Admin => [Admin, Farmer, Agronomist, Certifier, SupplyChain, Gateway, Sensor]
  }

  /** Some role of the list lists the permission. */
  predicate Listed(roles: seq<Role>, p: Permission)
  {
    roles != [] && (p in RolePermissions(roles[0]) || Listed(roles[1..], p))
  }

  lemma {:induction false} ListedMeaning(roles: seq<Role>, p: Permission)
    ensures Listed(roles, p) <==> exists i :: 0 <= i < |roles| && p in RolePermissions(roles[i])
  {
    if roles != [] {
      ListedMeaning(roles[1..], p);
      if i :| 0 <= i < |roles| && p in RolePermissions(roles[i]) {
        assert i > 0 ==> roles[1..][i - 1] == roles[i];
      }
    }
  }

  lemma {:induction false} ListedAppend(roles: seq<Role>, r: Role, p: Permission)
    ensures Listed(roles + [r], p) <==> Listed(roles, p) || p in RolePermissions(r)
  {
    if roles == [] {
      assert roles + [r] == [r];
    } else {
      assert (roles + [r])[1..] == roles[1..] + [r];
      ListedAppend(roles[1..], r, p);
    }
  }

  /** Some ancestor of the role lists the permission. */
  predicate Inherits(r: Role, p: Permission)
  {
    Listed(Ancestors(r), p)
  }

  /** What the roles list, one after the other. */
  function Listing(roles: seq<Role>): seq<Permission>
  {
    if roles == [] then [] else Listing(roles[..|roles| - 1]) + RolePermissions(roles[|roles| - 1])
  }

  /** The list without the repetitions, every permission standing where it came first. */
  function Firsts(permissions: seq<Permission>): seq<Permission>
  {
    if permissions == [] then [] else
      var n := |permissions| - 1;
      Firsts(permissions[..n]) + if permissions[n] in permissions[..n] then [] else [permissions[n]]
  }

  lemma {:induction false} FirstsMeaning(permissions: seq<Permission>)
    ensures forall p :: p in Firsts(permissions) <==> p in permissions
    ensures forall i, j :: 0 <= i < j < |Firsts(permissions)| ==> Firsts(permissions)[i] != Firsts(permissions)[j]
  {
    if permissions != [] {
      FirstsMeaning(permissions[..|permissions| - 1]);
    }
  }

  lemma {:induction false} ListingMeaning(roles: seq<Role>, p: Permission)
    ensures p in Listing(roles) <==> Listed(roles, p)
  {
    if roles != [] {
      var n := |roles| - 1;
      ListingMeaning(roles[..n], p);
      ListedAppend(roles[..n], roles[n], p);
      assert roles == roles[..n] + [roles[n]];
    }
  }

  /** The first occurrences so far, as a list and as a set. */
  ghost predicate Tracks(permissions: seq<Permission>, seen: set<Permission>, listing: seq<Permission>)
  {
    permissions == Firsts(listing) && forall p :: p in seen <==> p in listing
  }

  lemma TracksNext(permissions: seq<Permission>, seen: set<Permission>, listing: seq<Permission>, p: Permission)
    requires Tracks(permissions, seen, listing)
    ensures p in seen ==> Tracks(permissions, seen, listing + [p])
    ensures p !in seen ==> Tracks(permissions + [p], seen + {p}, listing + [p])
  {
    assert (listing + [p])[..|listing|] == listing;
  }

  lemma EffectiveMeaning(r: Role)
    ensures var permissions := Firsts(Listing(Ancestors(r)));
      && (forall p :: p in permissions <==> Inherits(r, p))
      && forall i, j :: 0 <= i < j < |permissions| ==> permissions[i] != permissions[j]
  {
    var roles := Ancestors(r);
    FirstsMeaning(Listing(roles));
    forall p ensures p in Listing(roles) <==> Listed(roles, p) {
      ListingMeaning(roles, p);
    }
  }

  lemma ListingNext(roles: seq<Role>, i: nat)
    requires i < |roles|
    ensures Listing(roles[..i + 1]) == Listing(roles[..i]) + RolePermissions(roles[i])
  {
    assert roles[..i + 1][..i] == roles[..i];
  }

  /** The inner loop of the source: one role's permissions. */
  method GatherOwn(
    own: seq<Permission>, gathered: seq<Permission>, found: set<Permission>, ghost listing: seq<Permission>)
    returns (permissions: seq<Permission>, seen: set<Permission>)
    requires Tracks(gathered, found, listing)
    ensures Tracks(permissions, seen, listing + own)
  {
    permissions, seen := gathered, found;
    assert listing + own[..0] == listing;
    for j := 0 to |own|
      invariant Tracks(permissions, seen, listing + own[..j])
    {
      TracksNext(permissions, seen, listing + own[..j], own[j]);
      assert listing + own[..j] + [own[j]] == listing + own[..j + 1];
      if own[j] !in seen {
        seen := seen + {own[j]};
        permissions := permissions + [own[j]];
      }
    }
    assert own[..|own|] == own;
  }

  /** The outer loop: whatever the roles list, each once, in order of first listing. */
  method Gather(ancestors: seq<Role>) returns (permissions: seq<Permission>)
    ensures permissions == Firsts(Listing(ancestors))
  {
    permissions := [];
    var seen: set<Permission> := {};
    for i := 0 to |ancestors|
      invariant Tracks(permissions, seen, Listing(ancestors[..i]))
    {
      permissions, seen := GatherOwn(RolePermissions(ancestors[i]), permissions, seen, Listing(ancestors[..i]));
      ListingNext(ancestors, i);
    }
    assert ancestors[..|ancestors|] == ancestors;
  }

  /** The permissions a role holds, each once and in the order of first listing along its ancestors: exactly
      those listed for one of them. A caller without a role holds none. */
  method GetEffectivePermissions(r: Option<Role>) returns (permissions: seq<Permission>)
    ensures r == None ==> permissions == []
    ensures r.Some? ==> permissions == Firsts(Listing(Ancestors(r.value)))
    ensures r.Some? ==> forall p :: p in permissions <==> Inherits(r.value, p)
    ensures forall i, j :: 0 <= i < j < |permissions| ==> permissions[i] != permissions[j]
  {
    if r == None {
      return [];
    }
    permissions := Gather(Ancestors(r.value));
    EffectiveMeaning(r.value);
  }

  /** The empty permission is never held; AdminAll stands for every other one. */
  predicate HasPermission(r: Option<Role>, p: Permission)
  {
    r.Some? && p != Other("") && (Inherits(r.value, p) || Inherits(r.value, AdminAll))
  }

  /** The scan of the source, over a list already gathered. */
  method Scan(permissions: seq<Permission>, p: Permission) returns (held: bool)
    ensures held <==> p in permissions || AdminAll in permissions
  {
    for i := 0 to |permissions|
      invariant p !in permissions[..i] && AdminAll !in permissions[..i]
    {
      if permissions[i] == p || permissions[i] == AdminAll {
        return true;
      }
    }
    return false;
  }

  /** The loop over the effective permissions decides exactly that. */
  method CheckPermission(r: Option<Role>, p: Permission) returns (held: bool)
    ensures held <==> HasPermission(r, p)
  {
    if p == Other("") {
      return false;
    }
    var permissions := GetEffectivePermissions(r);
    held := Scan(permissions, p);
  }

  lemma AncestorsTransitive(r: Role, a: Role, i: nat)
    requires a in Ancestors(r) && i < |Ancestors(a)|
    ensures exists j :: 0 <= j < |Ancestors(r)| && Ancestors(r)[j] == Ancestors(a)[i]
  {
    assert Ancestors(a)[i] in Ancestors(r);
  }

  /** The hierarchy is transitive: a role holds everything any of its ancestors holds. */
  lemma InheritanceTransitive(r: Role, a: Role, p: Permission)
    requires a in Ancestors(r) && HasPermission(Some(a), p)
    ensures HasPermission(Some(r), p)
  {
    forall q | Inherits(a, q) ensures Inherits(r, q) {
      ListedMeaning(Ancestors(a), q);
      ListedMeaning(Ancestors(r), q);
      var i :| 0 <= i < |Ancestors(a)| && q in RolePermissions(Ancestors(a)[i]);
      AncestorsTransitive(r, a, i);
    }
  }

  /** Only administrators hold AdminAll, and they hold every named permission; a sensor holds one. */
  lemma RolePower(r: Role, p: Permission)
    ensures Inherits(r, AdminAll) <==> r == Admin
    ensures r == Admin && p != Other("") ==> HasPermission(Some(r), p)
    ensures HasPermission(Some(Sensor), p) <==> p == WriteSensor
  {
    ListedMeaning(Ancestors(r), AdminAll);
    ListedMeaning(Ancestors(Sensor), AdminAll);
    ListedMeaning(Ancestors(Sensor), p);
    assert Ancestors(Admin)[0] == Admin && Ancestors(Sensor)[0] == Sensor;
  }

  // ---- the tables spelled out ----------------------------------------------------------

  function RoleName(r: Role): string
  {
    match r
    case Admin => "Admin" case Gateway => "Gateway" case Farmer => "Farmer" case Agronomist => "Agronomist"
    case Certifier => "Certifier" case SupplyChain => "SupplyChain" case Sensor => "Sensor"
  }

  /** A role name stands for its own role, and no other string stands for any. */
  lemma RoleNames(name: string, r: Role)
    ensures ParseRole(name) == Some(r) <==> name == RoleName(r)
  {
  }

  /** The permissions in effect for each role, inheritance carried out, in the order the source gathers them. */
  function PermissionList(r: Role): seq<Permission>
  {
    match r
    case SupplyChain => [ReadOwn]
    case Certifier => [ReadZone, ReadAudit, ReadOwn]
    case Agronomist => [ControlZone, IssueCrossZone, ReadZone, ReadAudit, ReadOwn]
    case Farmer => [WriteSensor, ControlZone, IssueCrossZone, ReadZone, ReadAudit, ReadOwn]
    case Sensor => [WriteSensor]
    case Gateway => [ReadZone, ControlZone, WriteSensor]
    case Admin =>
      [ReadAll, ControlAll, ManageRoles, AdminAll, WriteSensor, ControlZone, IssueCrossZone, ReadZone, ReadAudit,
       ReadOwn]
  }

  /** Which role holds a permission: an administrator every one but the empty name, any other role those of
      its list. */
  predicate Holds(r: Role, p: Permission)
  {
    if r == Admin then p != Other("") else p in PermissionList(r)
  }

  function PermissionName(p: Permission): string
  {
    match p
    case ReadOwn => "ReadOwn" case ReadZone => "ReadZone" case ReadAll => "ReadAll"
    case WriteSensor => "WriteSensor" case ControlZone => "ControlZone" case ControlAll => "ControlAll"
    case ReadAudit => "ReadAudit" case ManageRoles => "ManageRoles" case IssueCrossZone => "IssueCrossZone"
    case AdminAll => "AdminAll" case Other(name) => name
  }

  /** A permission asked for by name is the permission of that name. */
  lemma PermissionNames(name: string, p: Permission)
    ensures PermissionName(ParsePermission(name)) == name
    ensures !p.Other? ==> (ParsePermission(name) == p <==> name == PermissionName(p))
  {
  }

  lemma {:induction false} FirstsDistinct(permissions: seq<Permission>)
    requires forall i, j :: 0 <= i < j < |permissions| ==> permissions[i] != permissions[j]
    ensures Firsts(permissions) == permissions
  {
    if permissions != [] {
      FirstsDistinct(permissions[..|permissions| - 1]);
    }
  }

  lemma {:induction false} FirstsKnown(permissions: seq<Permission>, more: seq<Permission>)
    requires forall i :: 0 <= i < |more| ==> more[i] in permissions
    ensures Firsts(permissions + more) == Firsts(permissions)
  {
    if more != [] {
      var n := |more| - 1;
      FirstsKnown(permissions, more[..n]);
      assert (permissions + more)[..|permissions + more| - 1] == permissions + more[..n];
    } else {
      assert permissions + more == permissions;
    }
  }

  lemma ListingAppend(roles: seq<Role>, r: Role)
    ensures Listing(roles + [r]) == Listing(roles) + RolePermissions(r)
  {
    assert (roles + [r])[..|roles|] == roles;
  }

  lemma ListingOf(a: Role, b: Role, c: Role, d: Role)
    ensures Listing([a]) == RolePermissions(a)
    ensures Listing([a, b]) == RolePermissions(a) + RolePermissions(b)
    ensures Listing([a, b, c]) == RolePermissions(a) + RolePermissions(b) + RolePermissions(c)
    ensures Listing([a, b, c, d]) == RolePermissions(a) + RolePermissions(b) + RolePermissions(c) + RolePermissions(d)
  {
    ListingAppend([], a);
    assert [] + [a] == [a];
    ListingAppend([a], b);
    assert [a] + [b] == [a, b];
    ListingAppend([a, b], c);
    assert [a, b] + [c] == [a, b, c];
    ListingAppend([a, b, c], d);
    assert [a, b, c] + [d] == [a, b, c, d];
  }

  lemma ListingOfSeven(roles: seq<Role>)
    requires |roles| == 7
    ensures Listing(roles) ==
            Listing(roles[..4]) + RolePermissions(roles[4]) + RolePermissions(roles[5]) + RolePermissions(roles[6])
  {
    ListingAppend(roles[..4], roles[4]);
    assert roles[..4] + [roles[4]] == roles[..5];
    ListingAppend(roles[..5], roles[5]);
    assert roles[..5] + [roles[5]] == roles[..6];
    ListingAppend(roles[..6], roles[6]);
    assert roles[..6] + [roles[6]] == roles;
  }

  /** In effect for a role: the permissions in this order. */
  predicate InEffect(r: Role, permissions: seq<Permission>)
  {
    Firsts(Listing(Ancestors(r))) == permissions
  }

  lemma FarmerList()
    ensures InEffect(Farmer, [WriteSensor, ControlZone, IssueCrossZone, ReadZone, ReadAudit, ReadOwn])
  {
    var all := [WriteSensor, ControlZone, IssueCrossZone, ReadZone, ReadAudit, ReadOwn];
    ListingOf(Farmer, Agronomist, Certifier, SupplyChain);
    assert Listing(Ancestors(Farmer)) == all;
    FirstsDistinct(all);
  }

  lemma AgronomistList()
    ensures InEffect(Agronomist, [ControlZone, IssueCrossZone, ReadZone, ReadAudit, ReadOwn])
  {
    var all := [ControlZone, IssueCrossZone, ReadZone, ReadAudit, ReadOwn];
    ListingOf(Agronomist, Certifier, SupplyChain, SupplyChain);
    assert Listing(Ancestors(Agronomist)) == all;
    FirstsDistinct(all);
  }

  lemma CertifierList()
    ensures InEffect(Certifier, [ReadZone, ReadAudit, ReadOwn])
    ensures InEffect(SupplyChain, [ReadOwn])
  {
    var all := [ReadZone, ReadAudit, ReadOwn];
    ListingOf(Certifier, SupplyChain, SupplyChain, SupplyChain);
    ListingOf(SupplyChain, SupplyChain, SupplyChain, SupplyChain);
    assert Listing(Ancestors(Certifier)) == all;
    FirstsDistinct(all);
    FirstsDistinct([ReadOwn]);
  }

  lemma GatewayList()
    ensures InEffect(Gateway, [ReadZone, ControlZone, WriteSensor])
    ensures InEffect(Sensor, [WriteSensor])
  {
    var all := [ReadZone, ControlZone, WriteSensor];
    ListingOf(Gateway, Sensor, Sensor, Sensor);
    ListingOf(Sensor, Sensor, Sensor, Sensor);
    assert Listing(Ancestors(Gateway)) == all;
    FirstsDistinct(all);
    FirstsDistinct([WriteSensor]);
  }

  function AdminFirst(): seq<Permission>
  {
    [ReadAll, ControlAll, ManageRoles, AdminAll, WriteSensor, ControlZone, IssueCrossZone, ReadZone, ReadAudit]
  }

  lemma AdminListing()
    ensures Listing(Ancestors(Admin)) == AdminFirst() + [ReadOwn] + [ReadZone, ControlZone] + [WriteSensor]
  {
    var roles := Ancestors(Admin);
    ListingOf(Admin, Farmer, Agronomist, Certifier);
    assert roles[..4] == [Admin, Farmer, Agronomist, Certifier];
    assert Listing(roles[..4]) == AdminFirst();
    ListingOfSeven(roles);
  }

  lemma AdminList()
    ensures InEffect(Admin, AdminFirst() + [ReadOwn])
  {
    var all, again := AdminFirst() + [ReadOwn], [ReadZone, ControlZone] + [WriteSensor];
    AdminListing();
    assert Listing(Ancestors(Admin)) == all + again;
    FirstsDistinct(all);
    FirstsKnown(all, again);
  }

  /** What the source's loops gather for a role is its list, in order. */
  lemma EffectiveList(r: Role)
    ensures InEffect(r, PermissionList(r))
  {
    match r
    case Farmer => FarmerList();
    case Agronomist => AgronomistList();
    case Certifier => CertifierList();
    case SupplyChain => CertifierList();
    case Gateway => GatewayList();
    case Sensor => GatewayList();
    case Admin => AdminList();
  }

  lemma EffectiveMembers(r: Role, permissions: seq<Permission>, p: Permission)
    requires InEffect(r, permissions)
    ensures p in permissions <==> Inherits(r, p)
  {
    EffectiveMeaning(r);
  }

  /** A permission is held exactly as the lists say. */
  lemma PermissionTable(r: Role, p: Permission)
    ensures HasPermission(Some(r), p) <==> Holds(r, p)
  {
    RolePower(r, p);
    if r != Admin {
      EffectiveList(r);
      EffectiveMembers(r, PermissionList(r), p);
    }
  }

  // ---- zones ---------------------------------------------------------------------------

  const VALID_ZONES: set<string> := {"North", "South", "East", "West"}

  /** Stored zone lists hold valid zone names and possibly the wildcard. */
  predicate StorableZone(z: string)
  {
    z == "North" || z == "South" || z == "East" || z == "West" || z == "*"
  }

  datatype ZoneError = InvalidZone | ZoneRequired

  /** The trimmed, non-empty ones among the given pieces. */
  function TrimmedParts(parts: seq<string>): set<string>
  {
    set i | 0 <= i < |parts| && Trim(parts[i]) != "" :: Trim(parts[i])
  }

  /** The trimmed, non-empty comma-separated parts of all the values. */
  function ParsedZones(values: set<string>): set<string>
  {
    set v, p | v in values && p in TrimmedParts(Split(v, ',')) :: p
  }

  lemma ParsedZonesExtend(values: set<string>, v: string)
    ensures ParsedZones(values + {v}) == ParsedZones(values) + TrimmedParts(Split(v, ','))
  {
  }

  method ParseZones(values: set<string>) returns (zones: set<string>)
    ensures zones == ParsedZones(values)
  {
    zones := {};
    var todo := values;
    while todo != {}
      invariant todo <= values
      invariant zones == ParsedZones(values - todo)
      decreases todo
    {
      var value :| value in todo;
      var parts := Split(value, ',');
      ghost var before := zones;
      for i := 0 to |parts|
        invariant zones == before + TrimmedParts(parts[..i])
      {
        var zone := Trim(parts[i]);
        TrimmedPartsExtend(parts, i);
        if zone != "" {
          zones := zones + {zone};
        }
      }
      assert parts[..|parts|] == parts;
      ParsedZonesExtend(values - todo, value);
      assert values - (todo - {value}) == (values - todo) + {value};
      todo := todo - {value};
    }
    assert values - {} == values;
  }

  lemma TrimmedPartsExtend(parts: seq<string>, i: nat)
    requires i < |parts|
    ensures TrimmedParts(parts[..i + 1]) ==
            TrimmedParts(parts[..i]) + if Trim(parts[i]) == "" then {} else {Trim(parts[i])}
  {
  }

  /** Parsing a stored zone list changes nothing. */
  lemma StoredZonesParse(zones: set<string>)
    requires forall z :: z in zones ==> StorableZone(z)
    ensures ParsedZones(zones) == zones
  {
    forall z | z in zones ensures TrimmedParts(Split(z, ',')) == {z} {
      assert ',' !in z && Trimmed(z) && z != "";
      assert Split(z, ',')[0] == z;
    }
    forall z | z in zones ensures z in ParsedZones(zones) {
      assert z in TrimmedParts(Split(z, ','));
    }
  }

  /** The zones an administrator may store: valid names or the wildcard, at least one if required. */
  function NormalZones(csv: string, required: bool): (r: Result<set<string>, ZoneError>)
    ensures r.Ok? ==> forall z :: z in r.value ==> StorableZone(z)
  {
    var zones := ParsedZones({csv});
    if exists z :: z in zones && !StorableZone(z) then Err(InvalidZone)
    else if required && zones == {} then Err(ZoneRequired)
    else Ok(zones)
  }

  predicate IsZoneValid(zone: string)
  {
    Trim(zone) in VALID_ZONES
  }

  lemma AcceptedZones(zones: set<string>)
    ensures forall z :: z in ParsedZones(zones) ==> Trimmed(z) && (z == "*" || IsZoneValid(z) <==> StorableZone(z))
  {
  }

  /** Some part of the list, trimmed, is `z`, which is not blank. */
  predicate Part(parts: seq<string>, z: string)
  {
    z != "" && exists i :: 0 <= i < |parts| && Trim(parts[i]) == z
  }

  lemma ParsedParts(parts: seq<string>)
    requires parts != [] && forall i :: 0 <= i < |parts| ==> ',' !in parts[i]
    ensures forall z :: z in ParsedZones({Join(parts, ',')}) <==> Part(parts, z)
  {
    var csv := Join(parts, ',');
    JoinSplit(parts, ',');
    ParsedZonesExtend({}, csv);
    assert {} + {csv} == {csv};
    assert ParsedZones({csv}) == TrimmedParts(parts);
  }

  /** The zones that may be stored are the four of the farm and the wildcard. */
  lemma ZoneNames(z: string)
    ensures StorableZone(z) <==> z in ["North", "South", "East", "West", "*"]
    ensures StorableZone(z) <==> z == "*" || (Trimmed(z) && IsZoneValid(z))
  {
  }

  lemma NormalMeaning(csv: string, required: bool)
    ensures var r, zones := NormalZones(csv, required), ParsedZones({csv});
      && (r.Ok? <==> (forall z :: z in zones ==> StorableZone(z)) && (required ==> zones != {}))
      && (r.Ok? ==> r.value == zones)
      && (r == Err(InvalidZone) <==> exists z :: z in zones && !StorableZone(z))
  {
  }

  /** A zone list is read part by part. It is accepted exactly if every part that is not blank names a
      storable zone and, where a zone is required, some part is not blank; it then gives just those parts. */
  lemma ZoneList(parts: seq<string>, required: bool)
    requires parts != [] && forall i :: 0 <= i < |parts| ==> ',' !in parts[i]
    ensures var r := NormalZones(Join(parts, ','), required);
      && (r.Ok? <==>
            (forall z :: Part(parts, z) ==> StorableZone(z)) && (required ==> exists z :: Part(parts, z)))
      && (r.Ok? ==> forall z :: z in r.value <==> Part(parts, z))
      && (r == Err(InvalidZone) <==> exists z :: Part(parts, z) && !StorableZone(z))
  {
    ParsedParts(parts);
    NormalMeaning(Join(parts, ','), required);
    SomeZone(ParsedZones({Join(parts, ',')}), parts);
  }

  lemma SomeZone(zones: set<string>, parts: seq<string>)
    requires forall z :: z in zones <==> Part(parts, z)
    ensures zones != {} <==> exists z :: Part(parts, z)
  {
    if zones != {} {
      var z :| z in zones;
      assert Part(parts, z);
    }
  }

  method NormalizeZones(csv: string, required: bool) returns (r: Result<set<string>, ZoneError>)
    ensures r == NormalZones(csv, required)
  {
    var parsed := ParseZones({csv});
    AcceptedZones({csv});
    var zones: set<string> := {};
    var todo := parsed;
    while todo != {}
      invariant todo <= parsed && zones == parsed - todo
      invariant forall z :: z in zones ==> StorableZone(z)
      decreases todo
    {
      var zone :| zone in todo;
      if zone != "*" && !IsZoneValid(zone) {
        return Err(InvalidZone);
      }
      zones := zones + {zone};
      todo := todo - {zone};
    }
    assert zones == parsed;
    if required && zones == {} {
      return Err(ZoneRequired);
    }
    return Ok(zones);
  }
}
