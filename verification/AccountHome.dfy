/** Claiming managed account homes: what a history of claims guarantees about who may
    use which directory. */
module AccountHome {
  import opened Wrappers
  import opened Utf8
  import opened OwnerManifest

  /** A home directory's path: its provider and its path component. */
  type Path = (seq<byte>, seq<byte>)

  /** A home directory: its owner manifest, and whether it holds anything else. */
  datatype Home = Home(manifest: Option<seq<byte>>, occupied: bool)

  type Homes = map<Path, Home>

  /** What the file system may refuse during one call. */
  datatype Faults = Faults(stat: bool, dir: bool, read: bool, list: bool, write: bool)

  datatype Outcome =
    | Granted(path: Path)
    | UnknownProvider
    | UnsafePath
    | MalformedManifest
    | ForeignManifest(owner: (seq<byte>, seq<byte>))
    | AmbiguousLegacyHome
    | HomeExists

  /** The closed provider registry, and the path component of an account name, which
      nothing here assumes to be injective. */
  datatype Registry = Registry(providers: set<seq<byte>>, component: seq<byte> -> seq<byte>) {
    ghost predicate Sound() {
      forall p | p in providers :: Valid(p) && NEWLINE !in p
    }

    function PathOf(provider: seq<byte>, name: seq<byte>): (path: Path) {
      (provider, component(name))
    }
  }

  function HomeAt(homes: Homes, path: Path): (home: Home) {
    if path in homes then homes[path] else Home(None, false)
  }

  /** The verdict on a home whose manifest, if any, could be read; `Granted` without a
      manifest means that one is written. */
  function Judge(home: Home, path: Path, provider: seq<byte>, name: seq<byte>, aliased: bool,
                 faults: Faults): (o: Outcome)
  {
    match home.manifest
    case Some(bytes) =>
      var owner := ParseManifest(bytes);
      if |bytes| > OWNER_MANIFEST_LIMIT || owner.None? then MalformedManifest
      else if owner.value != (provider, name) then ForeignManifest(owner.value)
      else Granted(path)
    case None =>
      if aliased && faults.list then UnsafePath
      else if aliased && home.occupied then AmbiguousLegacyHome
      else if faults.write then UnsafePath
      else Granted(path)
  }

  function Claimed(homes: Homes, reg: Registry, provider: seq<byte>, name: seq<byte>, aliased: bool,
                   faults: Faults): (r: (Homes, Outcome))
  {
    if provider !in reg.providers then (homes, UnknownProvider)
    else if faults.dir then (homes, UnsafePath)
    else
      var path := reg.PathOf(provider, name);
      var home := HomeAt(homes, path);
      if faults.read then (homes[path := home], UnsafePath)
      else
        var o := Judge(home, path, provider, name, aliased, faults);
        var home' := if home.manifest.None? && o.Granted?
                     then home.(manifest := Some(Manifest(provider, name))) else home;
        (homes[path := home'], o)
  }

  function Created(homes: Homes, reg: Registry, provider: seq<byte>, name: seq<byte>,
                   faults: Faults): (r: (Homes, Outcome))
  {
    if provider !in reg.providers then (homes, UnknownProvider)
    else if faults.stat then (homes, UnsafePath)
    else if reg.PathOf(provider, name) in homes then (homes, HomeExists)
    else Claimed(homes, reg, provider, name, false, faults)
  }

  /** The state directory, with the two ways of obtaining a home in it. */
  class StateDir {
    const reg: Registry
    var homes: Homes

    constructor (reg: Registry, homes: Homes)
      ensures this.reg == reg && this.homes == homes
    {
      this.reg, this.homes := reg, homes;
    }

    method EnsureClaiming(provider: seq<byte>, name: seq<byte>, aliased: bool, faults: Faults) returns (o: Outcome)
      modifies this
      ensures (homes, o) == Claimed(old(homes), reg, provider, name, aliased, faults)
    {
      if provider !in reg.providers {
        return UnknownProvider;
      }
      if faults.dir {
        return UnsafePath;
      }
      var path := reg.PathOf(provider, name);
      var home := HomeAt(homes, path);
      homes := homes[path := home];
      if faults.read {
        return UnsafePath;
      }
      match home.manifest {
        case Some(bytes) =>
          if |bytes| > OWNER_MANIFEST_LIMIT {
            return MalformedManifest;
          }
          var owner := ParseManifest(bytes);
          if owner.None? {
            return MalformedManifest;
          }
          if owner.value != (provider, name) {
            return ForeignManifest(owner.value);
          }
        case None =>
          if aliased {
            if faults.list {
              return UnsafePath;
            }
            if home.occupied {
              return AmbiguousLegacyHome;
            }
          }
          if faults.write {
            return UnsafePath;
          }
          homes := homes[path := home.(manifest := Some(Manifest(provider, name)))];
          assert homes == old(homes)[path := homes[path]];
      }
      return Granted(path);
    }

    method Create(provider: seq<byte>, name: seq<byte>, faults: Faults) returns (o: Outcome)
      modifies this
      ensures (homes, o) == Created(old(homes), reg, provider, name, faults)
    {
      if provider !in reg.providers {
        return UnknownProvider;
      }
      if faults.stat {
        return UnsafePath;
      }
      if reg.PathOf(provider, name) in homes {
        return HomeExists;
      }
      o := EnsureClaiming(provider, name, false, faults);
    }
  }

  // ------------------------------------------------------------ claim histories

  datatype Op =
    | Ensure(provider: seq<byte>, name: seq<byte>, aliased: bool, faults: Faults)
    | Create(provider: seq<byte>, name: seq<byte>, faults: Faults)
    | Fill(path: Path)   // an agent leaves files in an existing home

  function Do(homes: Homes, reg: Registry, op: Op): (r: (Homes, Option<Outcome>)) {
    match op
    case Ensure(provider, name, aliased, faults) =>
      var (homes', o) := Claimed(homes, reg, provider, name, aliased, faults); (homes', Some(o))
    case Create(provider, name, faults) =>
      var (homes', o) := Created(homes, reg, provider, name, faults); (homes', Some(o))
    case Fill(path) =>
      (if path in homes then homes[path := homes[path].(occupied := true)] else homes, None)
  }

  function After(homes: Homes, reg: Registry, ops: seq<Op>): (homes': Homes) {
    if ops == [] then homes else Do(After(homes, reg, ops[..|ops| - 1]), reg, ops[|ops| - 1]).0
  }

  /** Operation `i` of the history grants `path`. */
  ghost predicate Grants(homes: Homes, reg: Registry, ops: seq<Op>, i: nat, path: Path)
    requires i < |ops|
  {
    Do(After(homes, reg, ops[..i]), reg, ops[i]).1 == Some(Granted(path))
  }

  lemma DoKeepsManifests(homes: Homes, reg: Registry, op: Op, path: Path)
    requires HomeAt(homes, path).manifest.Some?
    ensures HomeAt(Do(homes, reg, op).0, path).manifest == HomeAt(homes, path).manifest
  {
  }

  /** A manifest once written never changes, whatever follows. */
  lemma {:induction false} ManifestNeverChanges(homes: Homes, reg: Registry, ops: seq<Op>, i: nat, path: Path)
    requires i <= |ops| && HomeAt(After(homes, reg, ops[..i]), path).manifest.Some?
    ensures HomeAt(After(homes, reg, ops), path).manifest == HomeAt(After(homes, reg, ops[..i]), path).manifest
    decreases |ops|
  {
    if i == |ops| {
      assert ops[..i] == ops;
    } else {
      var init := ops[..|ops| - 1];
      assert init[..i] == ops[..i];
      ManifestNeverChanges(homes, reg, init, i, path);
      DoKeepsManifests(After(homes, reg, init), reg, ops[|ops| - 1], path);
    }
  }

  /** A granted home carries the manifest of the account it was granted to. */
  lemma GrantIsOwned(homes: Homes, reg: Registry, op: Op, path: Path)
    requires reg.Sound() && !op.Fill? && Do(homes, reg, op).1 == Some(Granted(path))
    ensures path == reg.PathOf(op.provider, op.name)
    ensures HomeAt(Do(homes, reg, op).0, path).manifest == Some(Manifest(op.provider, op.name))
    ensures NEWLINE !in op.provider && Valid(op.provider)
  {
    var home := HomeAt(homes, path);
    if home.manifest.Some? {
      ManifestInvertsParse(home.manifest.value);
    }
  }

  /** Over every history of claims, from any starting state, two accounts that are
      ever granted the same home are the same account, even when their path
      components collide. */
  lemma HomesAreExclusive(homes: Homes, reg: Registry, ops: seq<Op>, i: nat, j: nat, path: Path)
    requires reg.Sound() && i < j < |ops| && !ops[i].Fill? && !ops[j].Fill?
    requires Valid(ops[i].name) && Valid(ops[j].name)
    requires Grants(homes, reg, ops, i, path) && Grants(homes, reg, ops, j, path)
    ensures ops[i].provider == ops[j].provider && ops[i].name == ops[j].name
  {
    var a, b := ops[i], ops[j];
    GrantIsOwned(After(homes, reg, ops[..i]), reg, a, path);
    GrantIsOwned(After(homes, reg, ops[..j]), reg, b, path);
    assert ops[..i + 1][..i] == ops[..i] && ops[..j + 1][..j] == ops[..j];
    assert ops[..j + 1][..i + 1] == ops[..i + 1];
    ManifestNeverChanges(homes, reg, ops[..j + 1], i + 1, path);
    ManifestInjective(a.provider, a.name, b.provider, b.name);
  }

  /** Exactly when a claim is granted: the provider is known, nothing on the way fails,
      and the home either carries this account's own manifest of at most 4,096 bytes or
      carries none, and then it is empty or nobody else could mean it. */
  lemma GrantExact(homes: Homes, reg: Registry, provider: seq<byte>, name: seq<byte>, aliased: bool, faults: Faults)
    requires reg.Sound() && Valid(name)
    ensures var home := HomeAt(homes, reg.PathOf(provider, name));
            Claimed(homes, reg, provider, name, aliased, faults).1 == Granted(reg.PathOf(provider, name)) <==>
            && provider in reg.providers && !faults.dir && !faults.read
            && (home.manifest.Some? ==>
                  home.manifest.value == Manifest(provider, name) && |home.manifest.value| <= 4_096)
            && (home.manifest.None? ==> !faults.write && (aliased ==> !faults.list && !home.occupied))
  {
    var home := HomeAt(homes, reg.PathOf(provider, name));
    if provider in reg.providers {
      ParseInvertsManifest(provider, name);
      if home.manifest.Some? && ParseManifest(home.manifest.value).Some? {
        ManifestInvertsParse(home.manifest.value);
      }
    }
  }

  /** A home is malformed exactly when it carries a manifest that is too long or that is
      no account's. */
  lemma MalformedExact(homes: Homes, reg: Registry, provider: seq<byte>, name: seq<byte>, aliased: bool, faults: Faults)
    ensures var home := HomeAt(homes, reg.PathOf(provider, name));
            Claimed(homes, reg, provider, name, aliased, faults).1 == MalformedManifest <==>
            && provider in reg.providers && !faults.dir && !faults.read && home.manifest.Some?
            && (|home.manifest.value| > 4_096 || !exists p, n :: ManifestOf(home.manifest.value, p, n))
  {
    var home := HomeAt(homes, reg.PathOf(provider, name));
    if home.manifest.Some? {
      ParseExact(home.manifest.value);
    }
  }

  /** Any claim that gets as far as the directory leaves it there, so that no new account
      is granted it afterwards. */
  lemma ClaimLeavesDirectory(homes: Homes, reg: Registry, provider: seq<byte>, name: seq<byte>, aliased: bool,
                             faults: Faults)
    requires provider in reg.providers && !faults.dir
    ensures var homes' := Claimed(homes, reg, provider, name, aliased, faults).0;
            reg.PathOf(provider, name) in homes' && Created(homes', reg, provider, name, NO_FAULTS).1 == HomeExists
  {
  }

  /** A refused claim says why: a manifest of another account names that account. */
  lemma RefusalNamesOwner(homes: Homes, reg: Registry, provider: seq<byte>, name: seq<byte>, aliased: bool,
                          faults: Faults, owner: (seq<byte>, seq<byte>))
    requires reg.Sound() && Claimed(homes, reg, provider, name, aliased, faults).1 == ForeignManifest(owner)
    ensures owner != (provider, name)
    ensures HomeAt(homes, reg.PathOf(provider, name)).manifest == Some(Manifest(owner.0, owner.1))
  {
    var home := HomeAt(homes, reg.PathOf(provider, name));
    ManifestInvertsParse(home.manifest.value);
  }

  /** What a new account is refused before any claim, in this order: an unknown provider,
      a path that cannot be inspected, a home that exists. Nothing changes then. */
  lemma CreateRefuses(homes: Homes, reg: Registry, provider: seq<byte>, name: seq<byte>, faults: Faults)
    ensures var (homes', o) := Created(homes, reg, provider, name, faults);
            && (provider !in reg.providers ==> o == UnknownProvider && homes' == homes)
            && (provider in reg.providers && faults.stat ==> o == UnsafePath && homes' == homes)
            && (provider in reg.providers && !faults.stat && reg.PathOf(provider, name) in homes ==>
                  o == HomeExists && homes' == homes)
  {
  }

  /** A new account is only ever granted a home that did not exist, and a claim changes
      no home but its own, whose contents it keeps. */
  lemma ClaimTouchesOwnHome(homes: Homes, reg: Registry, op: Op, other: Path)
    requires !op.Fill?
    ensures op.Create? && Do(homes, reg, op).1 == Some(Granted(reg.PathOf(op.provider, op.name))) ==>
              reg.PathOf(op.provider, op.name) !in homes
    ensures other != reg.PathOf(op.provider, op.name) ==> HomeAt(Do(homes, reg, op).0, other) == HomeAt(homes, other)
    ensures HomeAt(Do(homes, reg, op).0, other).occupied == HomeAt(homes, other).occupied
  {
  }

  lemma {:induction false} StaysFilled(homes: Homes, reg: Registry, ops: seq<Op>, i: nat, path: Path)
    requires i <= |ops| && HomeAt(After(homes, reg, ops[..i]), path).occupied
    ensures HomeAt(After(homes, reg, ops), path).occupied
    decreases |ops|
  {
    if i == |ops| {
      assert ops[..i] == ops;
    } else {
      var init := ops[..|ops| - 1];
      assert init[..i] == ops[..i];
      StaysFilled(homes, reg, init, i, path);
      if !ops[|ops| - 1].Fill? {
        ClaimTouchesOwnHome(After(homes, reg, init), reg, ops[|ops| - 1], path);
      }
    }
  }

  /** Over every history, a claim under aliases is never granted a home that nobody owns
      and that was filled before: it may hold somebody's login. */
  lemma FilledNeverAdopted(homes: Homes, reg: Registry, ops: seq<Op>, i: nat, j: nat, path: Path)
    requires i < j < |ops| && ops[i] == Fill(path) && path in After(homes, reg, ops[..i])
    requires ops[j].Ensure? && ops[j].aliased && HomeAt(After(homes, reg, ops[..j]), path).manifest.None?
    ensures !Grants(homes, reg, ops, j, path)
  {
    assert ops[..i + 1][..i] == ops[..i] && ops[..j][..i + 1] == ops[..i + 1];
    StaysFilled(homes, reg, ops[..j], i + 1, path);
  }

  const NO_FAULTS: Faults := Faults(false, false, false, false, false)

  /** Once granted, an account's next claim succeeds exactly when its manifest fits
      the size limit: an owner with a longer name is locked out of its own home. */
  lemma OwnerReadmittedIfFits(homes: Homes, reg: Registry, op: Op, path: Path, aliased: bool)
    requires reg.Sound() && !op.Fill? && Valid(op.name)
    requires Do(homes, reg, op).1 == Some(Granted(path))
    ensures Claimed(Do(homes, reg, op).0, reg, op.provider, op.name, aliased, NO_FAULTS).1 == Granted(path) <==>
            |Manifest(op.provider, op.name)| <= OWNER_MANIFEST_LIMIT
  {
    GrantIsOwned(homes, reg, op, path);
    ParseInvertsManifest(op.provider, op.name);
  }

  /** An account of any name is granted an unclaimed home, and refused it from then on
      when its manifest is too long. */
  lemma LongNameLockedOut(reg: Registry, provider: seq<byte>, name: seq<byte>, aliased: bool)
    requires reg.Sound() && provider in reg.providers && Valid(name)
    requires |Manifest(provider, name)| > OWNER_MANIFEST_LIMIT
    ensures var (homes, o) := Claimed(map[], reg, provider, name, aliased, NO_FAULTS);
            && o == Granted(reg.PathOf(provider, name))
            && Claimed(homes, reg, provider, name, aliased, NO_FAULTS).1 == MalformedManifest
  {
  }

  /** There are such names: 2,048 letters already are too many. */
  lemma LongNameExists(provider: seq<byte>)
    ensures var name: seq<byte> := seq(2_048, i => 0x61);
            Valid(name) && |Manifest(provider, name)| > OWNER_MANIFEST_LIMIT
  {
    var name: seq<byte> := seq(2_048, i => 0x61);
    AsciiValid(name);
    ManifestLength(V1, provider, name);
  }
}
