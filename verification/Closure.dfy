/**
  The two dependency worklists: the system packages of the API audit
  (scripts/public-zig-api-audit.py) and the product closure that must not fetch
  libsolv (scripts/product-no-libsolv-fetch-audit.py).
 */
module Closure {
  import opened Wrappers

  type Hash = string

  /** The dependency hashes the manifest of a package pins, in order. */
  type Manifests = Hash -> seq<Hash>

  predicate IsLibsolv(h: Hash) {
    "libsolv-" <= h
  }

  // ---------------------------------------------------------------- reachability

  /** `h` is pinned by a chain of `n` packages in `through` that starts at a root. */
  ghost predicate ReachedIn(n: nat, roots: set<Hash>, pins: Manifests, through: set<Hash>, h: Hash) {
    if n == 0 then h in roots
    else exists g :: ReachedIn(n - 1, roots, pins, through, g) && g in through && h in pins(g)
  }

  ghost predicate Reached(roots: set<Hash>, pins: Manifests, through: set<Hash>, h: Hash) {
    exists n: nat :: ReachedIn(n, roots, pins, through, h)
  }

  lemma RootReached(roots: set<Hash>, pins: Manifests, through: set<Hash>, h: Hash)
    requires h in roots
    ensures Reached(roots, pins, through, h)
  {
    assert ReachedIn(0, roots, pins, through, h);
  }

  lemma PinReached(roots: set<Hash>, pins: Manifests, through: set<Hash>, g: Hash, h: Hash)
    requires Reached(roots, pins, through, g) && g in through && h in pins(g)
    ensures Reached(roots, pins, through, h)
  {
    var n: nat :| ReachedIn(n, roots, pins, through, g);
    assert ReachedIn(n + 1, roots, pins, through, h);
  }

  lemma {:induction false} ReachedInMonotone(
    n: nat, a: set<Hash>, b: set<Hash>, pins: Manifests, s: set<Hash>, t: set<Hash>, h: Hash)
    requires a <= b && s <= t && ReachedIn(n, a, pins, s, h)
    ensures ReachedIn(n, b, pins, t, h)
  {
    if n > 0 {
      var g :| ReachedIn(n - 1, a, pins, s, g) && g in s && h in pins(g);
      ReachedInMonotone(n - 1, a, b, pins, s, t, g);
    }
  }

  /** What a finished worklist has settled: every hash is in the closure or skipped. */
  ghost predicate Settled(roots: set<Hash>, pins: Manifests, closure: set<Hash>, skipped: iset<Hash>) {
    && (forall h :: h in roots ==> h in closure || h in skipped)
    && (forall g, h :: g in closure && h in pins(g) ==> h in closure || h in skipped)
  }

  lemma SettledStep(
    roots: set<Hash>, pins: Manifests, closure: set<Hash>, skipped: iset<Hash>, next: set<Hash>, rest: iset<Hash>)
    requires Settled(roots, pins, closure, skipped) && closure <= next
    requires forall h :: h in skipped ==> h in next || h in rest
    requires forall g, h :: g in next && g !in closure && h in pins(g) ==> h in next || h in rest
    ensures Settled(roots, pins, next, rest)
  {
  }

  lemma {:induction false} SettledReaches(
    n: nat, roots: set<Hash>, pins: Manifests, through: set<Hash>, closure: set<Hash>, skipped: iset<Hash>, h: Hash)
    requires Settled(roots, pins, closure, skipped) && ReachedIn(n, roots, pins, through, h)
    requires forall g :: g in through ==> g !in skipped
    ensures h in closure || h in skipped
  {
    if n > 0 {
      var g :| ReachedIn(n - 1, roots, pins, through, g) && g in through && h in pins(g);
      SettledReaches(n - 1, roots, pins, through, closure, skipped, g);
    }
  }

  // ---------------------------------------------------------------- the provided packages

  datatype ProvideError = NoCache | MissingPackage(h: Hash) | MissingRequired(name: string)

  const REQUIRED: seq<string> := ["sqlite", "tls", "zlua"]

  predicate Supplies(provided: set<Hash>, name: string) {
    exists h :: h in provided && name + "-" <= h
  }

  /** Exactly the present packages reachable through present packages. */
  ghost predicate IsProvided(roots: set<Hash>, pins: Manifests, present: set<Hash>, provided: set<Hash>) {
    forall h :: h in provided <==> h in present && Reached(roots, pins, present, h)
  }

  /** Only lazy libsolv packages may be missing. */
  ghost predicate OnlyLibsolvMissing(roots: set<Hash>, pins: Manifests, present: set<Hash>) {
    forall h :: Reached(roots, pins, present, h) && h !in present ==> "libsolv-" <= h
  }

  ghost predicate Provides(
    cache: bool, roots: set<Hash>, pins: Manifests, present: set<Hash>, r: Result<set<Hash>, ProvideError>)
  {
    match r
    case Ok(provided) =>
      && cache && IsProvided(roots, pins, present, provided) && OnlyLibsolvMissing(roots, pins, present)
      && Supplies(provided, "sqlite") && Supplies(provided, "tls") && Supplies(provided, "zlua")
    case Err(NoCache) => !cache
    case Err(MissingPackage(h)) =>
      cache && Reached(roots, pins, present, h) && h !in present && !("libsolv-" <= h)
    case Err(MissingRequired(name)) =>
      && cache && OnlyLibsolvMissing(roots, pins, present)
      && (name == "sqlite" || name == "tls" || name == "zlua")
      && (forall h :: Reached(roots, pins, present, h) && h in present ==> !(name + "-" <= h))
      && (name != "sqlite" ==> exists h :: Reached(roots, pins, present, h) && h in present && "sqlite" + "-" <= h)
      && (name == "zlua" ==> exists h :: Reached(roots, pins, present, h) && h in present && "tls" + "-" <= h)
  }

  /** A list of a set's elements, in no particular order. */
  method Listed(s: set<Hash>) returns (r: seq<Hash>)
    ensures forall h :: h in r <==> h in s
  {
    r := [];
    var left := s;
    while left != {}
      invariant left <= s && forall h :: h in r <==> h in s && h !in left
      decreases left
    {
      var h :| h in left;
      r, left := r + [h], left - {h};
    }
  }

  ghost function Skipped(present: set<Hash>): iset<Hash> {
    iset h | h !in present && IsLibsolv(h)
  }

  ghost function Pending(pending: seq<Hash>): iset<Hash> {
    iset h | h in pending
  }

  /** What the worklist still has to look at or may leave out. */
  ghost function Open(present: set<Hash>, pending: seq<Hash>): iset<Hash> {
    Skipped(present) + Pending(pending)
  }

  lemma OpenPops(present: set<Hash>, pending: seq<Hash>)
    requires pending != []
    ensures forall g :: g in Open(present, pending) ==>
      g == pending[|pending| - 1] || g in Open(present, pending[..|pending| - 1])
    ensures pending[|pending| - 1] !in present && IsLibsolv(pending[|pending| - 1]) ==>
      pending[|pending| - 1] in Open(present, pending[..|pending| - 1])
  {
  }

  lemma OpenGrows(present: set<Hash>, pending: seq<Hash>, more: seq<Hash>)
    ensures forall g :: g in Open(present, pending) || g in more ==> g in Open(present, pending + more)
  {
  }

  method ProvideSystemPackages(cache: bool, roots: set<Hash>, pins: Manifests, present: set<Hash>)
    returns (r: Result<set<Hash>, ProvideError>)
    ensures Provides(cache, roots, pins, present, r)
  {
    hide Reached, IsProvided, OnlyLibsolvMissing, Supplies;
    if !cache {
      return Err(NoCache);
    }
    var closure := PinnedClosure(roots, pins, present);
    if closure.Err? {
      return Err(MissingPackage(closure.error));
    }
    var unmet := Unsupplied(closure.value);
    if unmet.Some? {
      UnmetRequirement(roots, pins, present, closure.value, unmet.value);
      Requirement(roots, pins, present, closure.value, "sqlite");
      Requirement(roots, pins, present, closure.value, "tls");
      return Err(MissingRequired(unmet.value));
    }
    return Ok(closure.value);
  }

  /** The worklist itself; its error is a package that is missing and not libsolv. */
  method PinnedClosure(roots: set<Hash>, pins: Manifests, present: set<Hash>) returns (r: Result<set<Hash>, Hash>)
    ensures r.Ok? ==> IsProvided(roots, pins, present, r.value) && OnlyLibsolvMissing(roots, pins, present)
    ensures r.Err? ==> Reached(roots, pins, present, r.error) && r.error !in present && !IsLibsolv(r.error)
  {
    hide Reached, Settled, IsLibsolv, Open, IsProvided, OnlyLibsolvMissing;
    var provided: set<Hash> := {};
    var pending := Listed(roots);
    forall h | h in pending ensures Reached(roots, pins, present, h) {
      RootReached(roots, pins, present, h);
    }
    OpenGrows(present, [], pending);
    assert [] + pending == pending;
    SettledAtFirst(roots, pins, Open(present, pending));
    while pending != []
      invariant provided <= present
      invariant forall h :: h in provided ==> Reached(roots, pins, present, h)
      invariant forall h :: h in pending ==> Reached(roots, pins, present, h)
      invariant Settled(roots, pins, provided, Open(present, pending))
      decreases |present - provided|, |pending|
    {
      var h := pending[|pending| - 1];
      ghost var before := Open(present, pending);
      OpenPops(present, pending);
      assert h in pending;
      pending := pending[..|pending| - 1];
      if h in provided {
        SettledStep(roots, pins, provided, before, provided, Open(present, pending));
        continue;
      }
      if h !in present {
        if IsLibsolv(h) {
          SettledStep(roots, pins, provided, before, provided, Open(present, pending));
          continue;
        }
        return Err(h);
      }
      assert present - (provided + {h}) == (present - provided) - {h};
      ghost var others := provided;
      provided := provided + {h};
      var more := Listed((set g | g in pins(h)) - provided);
      forall g | g in more ensures Reached(roots, pins, present, g) {
        PinReached(roots, pins, present, h, g);
      }
      OpenGrows(present, pending, more);
      SettledStep(roots, pins, others, before, provided, Open(present, pending + more));
      pending := pending + more;
    }
    ProvidedClosure(roots, pins, present, provided);
    return Ok(provided);
  }

  method Unsupplied(provided: set<Hash>) returns (r: Option<string>)
    ensures r == None ==> Supplies(provided, "sqlite") && Supplies(provided, "tls") && Supplies(provided, "zlua")
    ensures r.Some? ==>
      && (r.value == "sqlite" || r.value == "tls" || r.value == "zlua") && !Supplies(provided, r.value)
      && (r.value != "sqlite" ==> Supplies(provided, "sqlite")) && (r.value == "zlua" ==> Supplies(provided, "tls"))
  {
    hide Supplies;
    assert REQUIRED[0] == "sqlite" && REQUIRED[1] == "tls" && REQUIRED[2] == "zlua";
    for k := 0 to |REQUIRED|
      invariant forall j :: 0 <= j < k ==> Supplies(provided, REQUIRED[j])
    {
      if !Supplies(provided, REQUIRED[k]) {
        return Some(REQUIRED[k]);
      }
    }
    return None;
  }

  lemma UnmetRequirement(roots: set<Hash>, pins: Manifests, present: set<Hash>, provided: set<Hash>, name: string)
    requires IsProvided(roots, pins, present, provided) && !Supplies(provided, name)
    ensures forall h :: Reached(roots, pins, present, h) && h in present ==> !(name + "-" <= h)
  {
    hide Reached;
  }

  lemma Requirement(roots: set<Hash>, pins: Manifests, present: set<Hash>, provided: set<Hash>, name: string)
    requires IsProvided(roots, pins, present, provided)
    ensures Supplies(provided, name) ==>
      exists h :: Reached(roots, pins, present, h) && h in present && name + "-" <= h
  {
    hide Reached;
  }

  lemma SettledAtFirst(roots: set<Hash>, pins: Manifests, pending: iset<Hash>)
    requires forall h :: h in roots ==> h in pending
    ensures Settled(roots, pins, {}, pending)
  {
  }

  lemma ProvidedClosure(roots: set<Hash>, pins: Manifests, present: set<Hash>, provided: set<Hash>)
    requires provided <= present && forall h :: h in provided ==> Reached(roots, pins, present, h)
    requires Settled(roots, pins, provided, Open(present, []))
    ensures IsProvided(roots, pins, present, provided) && OnlyLibsolvMissing(roots, pins, present)
  {
    assert Open(present, []) == Skipped(present);
    forall h | Reached(roots, pins, present, h) ensures h in provided || h in Skipped(present) {
      var n: nat :| ReachedIn(n, roots, pins, present, h);
      SettledReaches(n, roots, pins, present, provided, Skipped(present), h);
    }
  }

  /** The outcome does not depend on the order in which sets are listed. */
  lemma ProvidedOrderFree(
    cache: bool, roots: set<Hash>, pins: Manifests, present: set<Hash>,
    r: Result<set<Hash>, ProvideError>, s: Result<set<Hash>, ProvideError>)
    requires Provides(cache, roots, pins, present, r) && Provides(cache, roots, pins, present, s)
    ensures r.Ok? <==> s.Ok?
    ensures r.Ok? ==> r == s
  {
    hide Reached;
    if r.Ok? && s.Err? && s.error.MissingRequired? {
      SuppliesNot(roots, pins, present, r.value, s.error.name);
    }
    if s.Ok? && r.Err? && r.error.MissingRequired? {
      SuppliesNot(roots, pins, present, s.value, r.error.name);
    }
    if r.Ok? && s.Ok? {
      assert r.value == s.value by {
        forall h ensures h in r.value <==> h in s.value { }
      }
    }
  }

  lemma SuppliesNot(roots: set<Hash>, pins: Manifests, present: set<Hash>, provided: set<Hash>, name: string)
    requires IsProvided(roots, pins, present, provided)
    requires forall h :: Reached(roots, pins, present, h) && h in present ==> !(name + "-" <= h)
    ensures !Supplies(provided, name)
  {
  }

  // ---------------------------------------------------------------- the product closure

  datatype ExtractError = RequestedLibsolv | MissingArchive(h: Hash)

  /** The packages that are not libsolv. */
  function Clean(packages: set<Hash>): set<Hash> {
    set h | h in packages && !("libsolv-" <= h)
  }

  ghost predicate Extracts(roots: set<Hash>, pins: Manifests, cached: set<Hash>, r: Result<set<Hash>, ExtractError>) {
    var through := Clean(cached);
    match r
    case Ok(extracted) => forall h ::
      (h in extracted <==> Reached(roots, pins, through, h))
      && (h in extracted ==> h in cached && !("libsolv-" <= h))
    case Err(RequestedLibsolv) => exists h :: Reached(roots, pins, through, h) && "libsolv-" <= h
    case Err(MissingArchive(h)) => Reached(roots, pins, through, h) && h !in cached && !("libsolv-" <= h)
  }

  method ExtractDependencyClosure(initial: seq<Hash>, pins: Manifests, cached: set<Hash>)
    returns (r: Result<set<Hash>, ExtractError>)
    ensures Extracts((set h | h in initial), pins, cached, r)
  {
    hide Reached, Settled;
    ghost var roots := set h | h in initial;
    ghost var through := Clean(cached);
    var pending := initial;
    var extracted: set<Hash> := {};
    forall h | h in pending ensures Reached(roots, pins, through, h) {
      RootReached(roots, pins, through, h);
    }
    SettledAtFirst(roots, pins, Pending(pending));
    while pending != []
      invariant extracted <= through
      invariant forall h :: h in extracted || h in pending ==> Reached(roots, pins, through, h)
      invariant Settled(roots, pins, extracted, Pending(pending))
      decreases |cached - extracted|, |pending|
    {
      var h := pending[|pending| - 1];
      ghost var before := Pending(pending);
      pending := pending[..|pending| - 1];
      assert forall g :: g in before ==> g == h || g in pending;
      if h in extracted {
        SettledStep(roots, pins, extracted, before, extracted, Pending(pending));
        continue;
      }
      if IsLibsolv(h) {
        return Err(RequestedLibsolv);
      }
      if h !in cached {
        return Err(MissingArchive(h));
      }
      forall g | g in pins(h) ensures Reached(roots, pins, through, g) {
        PinReached(roots, pins, through, h, g);
      }
      assert cached - (extracted + {h}) == (cached - extracted) - {h};
      ghost var closure := extracted;
      extracted := extracted + {h};
      pending := pending + pins(h);
      SettledStep(roots, pins, closure, before, extracted, Pending(pending));
    }
    ExtractedClosure(roots, pins, through, extracted);
    return Ok(extracted);
  }

  lemma ExtractedClosure(roots: set<Hash>, pins: Manifests, through: set<Hash>, extracted: set<Hash>)
    requires Settled(roots, pins, extracted, Pending([]))
    ensures forall h :: Reached(roots, pins, through, h) ==> h in extracted
  {
    forall h | Reached(roots, pins, through, h) ensures h in extracted {
      var n: nat :| ReachedIn(n, roots, pins, through, h);
      SettledReaches(n, roots, pins, through, extracted, Pending([]), h);
    }
  }

  /** The extraction succeeds iff everything reachable is cached and none of it is libsolv. */
  lemma ExtractionSucceedsIff(roots: set<Hash>, pins: Manifests, cached: set<Hash>, r: Result<set<Hash>, ExtractError>)
    requires Extracts(roots, pins, cached, r)
    ensures r.Ok? <==> forall h ::
      Reached(roots, pins, Clean(cached), h) ==> h in cached && !("libsolv-" <= h)
  {
    hide Reached;
  }

  /** Over the same packages, with its roots among the pins, the product closure is part of what is provided. */
  lemma ProductWithinProvided(
    product: set<Hash>, roots: set<Hash>, pins: Manifests, present: set<Hash>,
    extracted: set<Hash>, provided: set<Hash>)
    requires product <= roots
    requires Extracts(product, pins, present, Ok(extracted))
    requires Provides(true, roots, pins, present, Ok(provided))
    ensures extracted <= provided
  {
    var through := Clean(present);
    forall h | h in extracted ensures h in provided {
      var n: nat :| ReachedIn(n, product, pins, through, h);
      ReachedInMonotone(n, product, roots, pins, through, present, h);
    }
  }
}
