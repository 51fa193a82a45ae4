/**
  Which components a package transaction touches: package relevance on the running system,
  component statuses by a list of uninstalled packages, and the package-to-components index.
 */
module Affected {
  import opened Options
  import opened Statuses

  /** A package of a component; `name` is the full name, kernel flavour included. */
  datatype Package = Package(
    name: string,
    arch: Option<seq<string>>,
    excludeArch: Option<seq<string>>,
    language: Option<string>,
    desktops: Option<seq<string>>)

  /** A component description; `packages` is missing when its table is. */
  datatype Component = Component(name: string, draft: bool, packages: Option<seq<Package>>)

  /** The machine: its architecture, locales and, if any could be found, desktop environments. */
  datatype System = System(arch: string, locales: seq<string>, desktops: Option<seq<string>>)

  datatype Action = Install | Remove

  // ---------- relevance ----------

  predicate Lists(names: Option<seq<string>>, name: string) {
    names.Some? && name in names.value
  }

  predicate Twice(names: Option<seq<string>>, name: string) {
    names.Some? && exists i, j :: 0 <= i < j < |names.value| && names.value[i] == name && names.value[j] == name
  }

  /** The lookup fails on an excluded architecture that is not in a given list of allowed ones, or is excluded twice. */
  predicate ArchFails(p: Package, arch: string) {
    Twice(p.excludeArch, arch) || (Lists(p.excludeArch, arch) && p.arch.Some? && !Lists(p.arch, arch))
  }

  predicate ArchIgnores(p: Package, arch: string) {
    (p.arch.Some? && !Lists(p.arch, arch)) || Lists(p.excludeArch, arch)
  }

  method IsIgnoredByArch(p: Package, arch: string) returns (r: Option<bool>)
    ensures r == if ArchFails(p, arch) then None else Some(ArchIgnores(p, arch))
  {
    var result := true;
    if p.arch.None? && p.excludeArch.None? {
      result := false;
    } else {
      if p.arch.Some? {
        for i := 0 to |p.arch.value|
          invariant result == (arch !in p.arch.value[..i])
        {
          if p.arch.value[i] == arch {
            result := false;
          }
        }
      } else {
        result := false;
      }
      if p.excludeArch.Some? {
        var names := p.excludeArch.value;
        var before := result;
        for i := 0 to |names|
          invariant result == (before || arch in names[..i])
          invariant !(before && arch in names[..i])
          invariant forall j, k | 0 <= j < k < i :: !(names[j] == arch && names[k] == arch)
        {
          if names[i] == arch {
            if result {
              if before {
                assert Lists(p.excludeArch, arch) && p.arch.Some? && !Lists(p.arch, arch);
              }
              return None;
            }
            result := true;
          }
        }
      }
    }
    r := Some(result);
  }

  method IsIgnoredByLanguage(p: Package, locales: seq<string>) returns (result: bool)
    ensures result <==> p.language.Some? && p.language.value !in locales
  {
    result := true;
    if p.language.None? {
      result := false;
    } else {
      for i := 0 to |locales|
        invariant result <==> p.language.value !in locales[..i]
      {
        if locales[i] == p.language.value {
          result := false;
        }
      }
    }
  }

  predicate Meet(a: seq<string>, b: seq<string>) {
    exists x :: x in a && x in b
  }

  lemma MeetStep(a: seq<string>, x: string, b: seq<string>)
    ensures Meet(a + [x], b) <==> Meet(a, b) || x in b
  {
    if Meet(a, b) {
      var y :| y in a && y in b;
      assert y in a + [x];
    }
    if x in b {
      assert x in a + [x];
    }
  }

  method IsIgnoredByDesktop(p: Package, desktops: Option<seq<string>>) returns (result: bool)
    ensures result <==> p.desktops.Some? && (desktops.None? || !Meet(p.desktops.value, desktops.value))
  {
    result := true;
    if p.desktops.None? {
      result := false;
    } else if desktops.Some? {
      for i := 0 to |p.desktops.value|
        invariant result <==> !Meet(p.desktops.value[..i], desktops.value)
      {
        for j := 0 to |desktops.value|
          invariant result <==> !Meet(p.desktops.value[..i], desktops.value) && p.desktops.value[i] !in desktops.value[..j]
        {
          if p.desktops.value[i] == desktops.value[j] {
            result := false;
          }
        }
        assert p.desktops.value[..i + 1] == p.desktops.value[..i] + [p.desktops.value[i]];
        MeetStep(p.desktops.value[..i], p.desktops.value[i], desktops.value);
      }
    }
  }

  datatype Verdict = Broken | Ignored | Relevant

  /** What the three tests say together. */
  function Judged(p: Package, sys: System): Verdict {
    if ArchFails(p, sys.arch) then Broken
    else if ArchIgnores(p, sys.arch)
         || (p.language.Some? && p.language.value !in sys.locales)
         || (p.desktops.Some? && (sys.desktops.None? || !Meet(p.desktops.value, sys.desktops.value))) then Ignored
    else Relevant
  }

  method Judge(p: Package, sys: System) returns (v: Verdict)
    ensures v == Judged(p, sys)
  {
    var byArch := IsIgnoredByArch(p, sys.arch);
    if byArch.None? {
      return Broken;
    }
    var byLang := IsIgnoredByLanguage(p, sys.locales);
    var byDesktop := IsIgnoredByDesktop(p, sys.desktops);
    v := if byArch.value || byLang || byDesktop then Ignored else Relevant;
  }

  // ---------- component status ----------

  /** `p` counts on this system and satisfies `among`. */
  predicate RelevantIn(packages: seq<Package>, sys: System, names: set<string>) {
    exists i :: 0 <= i < |packages| && Judged(packages[i], sys) == Relevant && packages[i].name in names
  }

  predicate AnyRelevant(packages: seq<Package>, sys: System) {
    exists i :: 0 <= i < |packages| && Judged(packages[i], sys) == Relevant
  }

  predicate AnyBroken(packages: seq<Package>, sys: System) {
    exists i :: 0 <= i < |packages| && Judged(packages[i], sys) == Broken
  }

  /** The packages in front of the first broken one. */
  function Sane(packages: seq<Package>, sys: System): (r: seq<Package>)
    ensures r <= packages && !AnyBroken(r, sys)
    ensures r == packages <==> !AnyBroken(packages, sys)
  {
    if packages == [] || Judged(packages[0], sys) == Broken then
      assert packages != [] ==> AnyBroken(packages, sys);
      []
    else
      var r := [packages[0]] + Sane(packages[1..], sys);
      assert AnyBroken(packages[1..], sys) ==> AnyBroken(packages, sys) by {
        if i :| 0 <= i < |packages[1..]| && Judged(packages[1..][i], sys) == Broken {
          assert Judged(packages[i + 1], sys) == Broken;
        }
      }
      r
  }

  /**
    The status by a set of uninstalled packages: a component without packages has none; one missing
    relevant package, or no relevant package at all, makes it not installed.
   */
  function StatusOf(packages: seq<Package>, uninstalled: set<string>, sys: System): (r: Status)
    ensures r != PartiallyInstalled
  {
    if RelevantIn(Sane(packages, sys), sys, uninstalled) then NotInstalled
    else if AnyRelevant(Sane(packages, sys), sys) then Installed
    else if packages == [] || AnyBroken(packages, sys) then NoStatus
    else NotInstalled
  }

  /** The status is settled without meeting a broken package. */
  predicate StatusOk(packages: seq<Package>, uninstalled: set<string>, sys: System) {
    RelevantIn(Sane(packages, sys), sys, uninstalled) || !AnyBroken(packages, sys)
  }

  method GetStatus(packages: seq<Package>, uninstalled: set<string>, sys: System) returns (status: Status, ok: bool)
    ensures status == StatusOf(packages, uninstalled, sys)
    ensures ok == StatusOk(packages, uninstalled, sys)
  {
    status, ok := NoStatus, true;
    for i := 0 to |packages|
      invariant ok && packages[..i] <= Sane(packages, sys)
      invariant !RelevantIn(packages[..i], sys, uninstalled)
      invariant status == if AnyRelevant(packages[..i], sys) then Installed
                          else if i == |packages| && i > 0 then NotInstalled else NoStatus
    {
      var v := Judge(packages[i], sys);
      SaneStep(packages, i, sys);
      RelevantStep(packages, i, sys, uninstalled);
      if v == Broken {
        ok := false;
        return;
      }
      if v == Ignored {
        if i == |packages| - 1 && status != Installed {
          status := NotInstalled;
        }
      } else if packages[i].name in uninstalled {
        status := NotInstalled;
        RelevantMore(packages[..i + 1], Sane(packages, sys), sys, uninstalled);
        return;
      } else if status != NotInstalled {
        status := Installed;
      }
    }
    assert packages[..|packages|] == packages;
  }

  /** One more package in front of the first broken one. */
  lemma {:induction false} SaneStep(packages: seq<Package>, i: nat, sys: System)
    requires i < |packages| && packages[..i] <= Sane(packages, sys)
    ensures if Judged(packages[i], sys) == Broken then Sane(packages, sys) == packages[..i]
            else packages[..i + 1] <= Sane(packages, sys)
    decreases i
  {
    hide *;
    SaneStarts(packages, sys);
    if i > 0 {
      var first, tail := packages[0], packages[1..];
      PrefixTail(packages, i, Sane(tail, sys));
      SaneStep(tail, i - 1, sys);
      PrefixWhole(packages, i, Sane(tail, sys));
    } else {
      assert packages[..0] == [] && packages[..1] == [packages[0]];
    }
  }

  lemma SaneStarts(packages: seq<Package>, sys: System)
    requires packages != []
    ensures Sane(packages, sys) == if Judged(packages[0], sys) == Broken then [] else [packages[0]] + Sane(packages[1..], sys)
  {
  }

  /** A beginning, seen from the second element on. */
  lemma PrefixTail(packages: seq<Package>, i: nat, rest: seq<Package>)
    requires 0 < i < |packages| && packages[..i] <= [packages[0]] + rest
    ensures packages[1..][..i - 1] <= rest && packages[1..][i - 1] == packages[i]
  {
    assert packages[1..][..i - 1] == packages[..i][1..];
    assert ([packages[0]] + rest)[1..] == rest;
  }

  lemma PrefixWhole(packages: seq<Package>, i: nat, rest: seq<Package>)
    requires 0 < i < |packages|
    ensures packages[1..][..i] <= rest ==> packages[..i + 1] <= [packages[0]] + rest
    ensures packages[1..][..i - 1] == rest ==> packages[..i] == [packages[0]] + rest
  {
    assert packages[..i + 1] == [packages[0]] + packages[1..][..i];
    assert packages[..i] == [packages[0]] + packages[1..][..i - 1];
  }

  lemma RelevantStep(packages: seq<Package>, i: nat, sys: System, names: set<string>)
    requires i < |packages|
    ensures RelevantIn(packages[..i + 1], sys, names) <==>
            RelevantIn(packages[..i], sys, names) || (Judged(packages[i], sys) == Relevant && packages[i].name in names)
    ensures AnyRelevant(packages[..i + 1], sys) <==>
            AnyRelevant(packages[..i], sys) || Judged(packages[i], sys) == Relevant
  {
    hide Judged;
    var less, more := packages[..i], packages[..i + 1];
    assert forall j | 0 <= j < i :: less[j] == more[j];
    assert more[i] == packages[i];
  }

  lemma RelevantMore(less: seq<Package>, more: seq<Package>, sys: System, names: set<string>)
    requires less <= more
    ensures RelevantIn(less, sys, names) ==> RelevantIn(more, sys, names)
    ensures AnyRelevant(less, sys) ==> AnyRelevant(more, sys)
    ensures AnyBroken(less, sys) ==> AnyBroken(more, sys)
  {
    hide Judged;
    assert forall j | 0 <= j < |less| :: less[j] == more[j];
  }

  // ---------- affected components ----------

  function ComponentStatus(c: Component, uninstalled: set<string>, sys: System): Status {
    if c.packages.None? then NoStatus else StatusOf(c.packages.value, uninstalled, sys)
  }

  /** Drafts are left out, and so are components already in the state the action leads to. */
  predicate Considered(c: Component, action: Action, uninstalled: set<string>, sys: System) {
    var status := ComponentStatus(c, uninstalled, sys);
    !c.draft &&
    match action
    case Install => status != Installed
    case Remove => status != NotInstalled && status != PartiallyInstalled
  }

  predicate Unreadable(c: Component, sys: System) {
    c.packages.None? || AnyBroken(c.packages.value, sys)
  }

  /** A component in question with a relevant package called `name`. */
  predicate Carries(c: Component, action: Action, uninstalled: set<string>, sys: System, name: string) {
    Considered(c, action, uninstalled, sys) && c.packages.Some? && RelevantIn(c.packages.value, sys, {name})
  }

  type Index = map<string, set<string>>

  predicate Holds(index: Index, package: string, component: string) {
    package in index && component in index[package]
  }

  function Added(index: Index, package: string, component: string): Index {
    if package in index then index[package := index[package] + {component}] else index[package := {component}]
  }

  /** The index says of each package which of the components seen carry it. */
  ghost predicate IndexOf(index: Index, seen: seq<Component>, action: Action, uninstalled: set<string>, sys: System) {
    forall package, component :: Holds(index, package, component) <==>
      exists c :: c in seen && c.name == component && Carries(c, action, uninstalled, sys, package)
  }

  method AddPackages(index: Index, name: string, packages: seq<Package>, sys: System) returns (r: Option<Index>)
    ensures r.None? <==> AnyBroken(packages, sys)
    ensures r.Some? ==> forall package, component :: Holds(r.value, package, component) <==>
              Holds(index, package, component) || (component == name && RelevantIn(packages, sys, {package}))
  {
    var now := index;
    for i := 0 to |packages|
      invariant !AnyBroken(packages[..i], sys)
      invariant forall package, component :: Holds(now, package, component) <==>
          Holds(index, package, component) || (component == name && RelevantIn(packages[..i], sys, {package}))
    {
      var v := Judge(packages[i], sys);
      BrokenStep(packages, i, sys);
      forall package
        ensures RelevantIn(packages[..i + 1], sys, {package}) <==>
                RelevantIn(packages[..i], sys, {package}) || (v == Relevant && packages[i].name == package)
      {
        RelevantStep(packages, i, sys, {package});
      }
      if v == Broken {
        RelevantMore(packages[..i + 1], packages, sys, {});
        return None;
      }
      if v == Relevant {
        now := Added(now, packages[i].name, name);
      }
    }
    assert packages[..|packages|] == packages;
    r := Some(now);
  }

  lemma BrokenStep(packages: seq<Package>, i: nat, sys: System)
    requires i < |packages|
    ensures AnyBroken(packages[..i + 1], sys) <==> AnyBroken(packages[..i], sys) || Judged(packages[i], sys) == Broken
  {
    hide Judged;
    var less, more := packages[..i], packages[..i + 1];
    assert forall j | 0 <= j < i :: less[j] == more[j];
    assert more[i] == packages[i];
  }

  /** The first component in question whose packages cannot be read stops the whole calculation. */
  predicate Stops(seen: seq<Component>, action: Action, uninstalled: set<string>, sys: System) {
    exists c :: c in seen && Considered(c, action, uninstalled, sys) && Unreadable(c, sys)
  }

  method MakeIndex(components: seq<Component>, action: Action, uninstalled: set<string>, sys: System)
    returns (r: Option<Index>)
    ensures r.None? <==> Stops(components, action, uninstalled, sys)
    ensures r.Some? ==> IndexOf(r.value, components, action, uninstalled, sys)
  {
    var index: Index := map[];
    for i := 0 to |components|
      invariant !Stops(components[..i], action, uninstalled, sys)
      invariant IndexOf(index, components[..i], action, uninstalled, sys)
    {
      var c := components[i];
      ghost var seen, more := components[..i], components[..i + 1];
      assert more == seen + [c];
      var status := NoStatus;
      if c.packages.Some? {
        var ok;
        status, ok := GetStatus(c.packages.value, uninstalled, sys);
      }
      if c.draft || (action == Install && status == Installed)
         || (action == Remove && (status == NotInstalled || status == PartiallyInstalled)) {
        assert !Considered(c, action, uninstalled, sys);
        continue;
      }
      assert Considered(c, action, uninstalled, sys);
      if c.packages.None? {
        assert c in components && Unreadable(c, sys);
        return None;
      }
      var added := AddPackages(index, c.name, c.packages.value, sys);
      if added.None? {
        return None;
      }
      index := added.value;
    }
    assert components[..|components|] == components;
    r := Some(index);
  }

  /** A component the action touches: it is in question and carries a requested package. */
  predicate Touched(c: Component, action: Action, uninstalled: set<string>, sys: System, requested: set<string>) {
    Considered(c, action, uninstalled, sys) && c.packages.Some? && RelevantIn(c.packages.value, sys, requested)
  }

  /**
    The names of the affected components, through the package-to-components index. Fails for an
    empty request, without components, or when packages of a component in question are unreadable.
   */
  method CalculateAffected(components: seq<Component>, action: Action, uninstalled: set<string>, sys: System,
                           requested: seq<string>) returns (r: Option<set<string>>)
    ensures r.None? <==> requested == [] || components == [] || Stops(components, action, uninstalled, sys)
    ensures r.Some? ==> forall name :: name in r.value <==>
              exists c :: c in components && c.name == name &&
                Touched(c, action, uninstalled, sys, set p | p in requested)
  {
    if requested == [] || components == [] {
      return None;
    }
    var index := MakeIndex(components, action, uninstalled, sys);
    if index.None? {
      return None;
    }
    var result: set<string> := {};
    for i := 0 to |requested|
      invariant forall name :: name in result <==> exists j :: 0 <= j < i && Holds(index.value, requested[j], name)
    {
      if requested[i] in index.value {
        result := result + index.value[requested[i]];
      }
    }
    forall name
      ensures name in result <==>
              exists c :: c in components && c.name == name && Touched(c, action, uninstalled, sys, set p | p in requested)
    {
      IndexAnswers(index.value, components, action, uninstalled, sys, requested, name);
    }
    r := Some(result);
  }

  /** The index gives the same answer as asking every component directly. */
  lemma IndexAnswers(index: Index, components: seq<Component>, action: Action, uninstalled: set<string>, sys: System,
                     requested: seq<string>, name: string)
    requires IndexOf(index, components, action, uninstalled, sys)
    ensures (exists j :: 0 <= j < |requested| && Holds(index, requested[j], name)) <==>
            (exists c :: c in components && c.name == name && Touched(c, action, uninstalled, sys, set p | p in requested))
  {
    hide Judged, StatusOf;
    if j :| 0 <= j < |requested| && Holds(index, requested[j], name) {
      var c :| c in components && c.name == name && Carries(c, action, uninstalled, sys, requested[j]);
      assert Touched(c, action, uninstalled, sys, set p | p in requested);
    }
    if c :| c in components && c.name == name && Touched(c, action, uninstalled, sys, set p | p in requested) {
      var i :| 0 <= i < |c.packages.value| && Judged(c.packages.value[i], sys) == Relevant
        && c.packages.value[i].name in requested;
      var j :| 0 <= j < |requested| && requested[j] == c.packages.value[i].name;
      assert Carries(c, action, uninstalled, sys, requested[j]);
      assert Holds(index, requested[j], name);
    }
  }

  // ---------- what affected means ----------

  /** Removing `gone` takes the component from installed to not installed. */
  predicate FlipsOut(c: Component, uninstalled: set<string>, gone: set<string>, sys: System) {
    !c.draft && ComponentStatus(c, uninstalled, sys) == Installed
    && ComponentStatus(c, uninstalled + gone, sys) == NotInstalled
  }

  /** Installing `added` takes the component to installed. */
  predicate FlipsIn(c: Component, uninstalled: set<string>, added: set<string>, sys: System) {
    !c.draft && ComponentStatus(c, uninstalled, sys) != Installed
    && ComponentStatus(c, uninstalled - added, sys) == Installed
  }

  lemma RelevantUnion(packages: seq<Package>, sys: System, a: set<string>, b: set<string>)
    ensures RelevantIn(packages, sys, a + b) <==> RelevantIn(packages, sys, a) || RelevantIn(packages, sys, b)
  {
    hide Judged;
    if i :| 0 <= i < |packages| && Judged(packages[i], sys) == Relevant && packages[i].name in a + b {
      assert packages[i].name in a || packages[i].name in b;
    }
    if i :| 0 <= i < |packages| && Judged(packages[i], sys) == Relevant && packages[i].name in a {
      assert packages[i].name in a + b;
    }
    if i :| 0 <= i < |packages| && Judged(packages[i], sys) == Relevant && packages[i].name in b {
      assert packages[i].name in a + b;
    }
  }

  lemma RelevantIsAny(packages: seq<Package>, sys: System, names: set<string>)
    ensures RelevantIn(packages, sys, names) ==> AnyRelevant(packages, sys)
    ensures AnyRelevant([], sys) == AnyBroken([], sys) == false
  {
  }

  /** When a package counts: its architecture, language and desktops all allow it. */
  lemma RelevantExact(p: Package, sys: System)
    ensures Judged(p, sys) == Relevant <==>
            && (p.arch.Some? ==> sys.arch in p.arch.value)
            && (p.excludeArch.Some? ==> sys.arch !in p.excludeArch.value)
            && (p.language.Some? ==> p.language.value in sys.locales)
            && (p.desktops.Some? ==> sys.desktops.Some? && exists d :: d in p.desktops.value && d in sys.desktops.value)
  {
  }

  /** Whether one of these packages counts and is, or is not, among these names. */
  predicate SomeIn(packages: seq<Package>, sys: System, names: set<string>) {
    exists i :: 0 <= i < |packages| && Judged(packages[i], sys) == Relevant && packages[i].name in names
  }

  predicate SomeNotIn(packages: seq<Package>, sys: System, names: set<string>) {
    exists i :: 0 <= i < |packages| && Judged(packages[i], sys) == Relevant && packages[i].name !in names
  }

  /**
    The status of a component none of whose packages is broken: not installed as soon as a package
    that counts is missing or when none counts, installed when some count and none of them is
    missing, and none without packages.
   */
  lemma StatusExact(packages: seq<Package>, uninstalled: set<string>, sys: System)
    requires forall i | 0 <= i < |packages| :: Judged(packages[i], sys) != Broken
    ensures var status := StatusOf(packages, uninstalled, sys);
            && (status == Installed <==>
                  SomeNotIn(packages, sys, uninstalled) && !SomeIn(packages, sys, uninstalled))
            && (status == NoStatus <==> packages == [])
            && (status == NotInstalled <==>
                  packages != [] && (SomeIn(packages, sys, uninstalled) || !SomeNotIn(packages, sys, uninstalled)))
    ensures StatusOk(packages, uninstalled, sys)
  {
    hide Judged;
    assert !AnyBroken(packages, sys);
  }

  /** A broken package hides itself and all behind it, unless a missing one before it settles the status. */
  lemma BrokenStatusExact(packages: seq<Package>, b: nat, uninstalled: set<string>, sys: System)
    requires b < |packages| && Judged(packages[b], sys) == Broken
    requires forall i | 0 <= i < b :: Judged(packages[i], sys) != Broken
    ensures var status := StatusOf(packages, uninstalled, sys);
            && (status == NotInstalled <==> SomeIn(packages[..b], sys, uninstalled))
            && (status == Installed <==>
                  SomeNotIn(packages[..b], sys, uninstalled) && !SomeIn(packages[..b], sys, uninstalled))
            && (status == NotInstalled || status == Installed || status == NoStatus)
            && (StatusOk(packages, uninstalled, sys) <==> SomeIn(packages[..b], sys, uninstalled))
  {
    SaneExact(packages, b, sys);
    hide Judged, Sane;
    assert AnyBroken(packages, sys);
  }

  lemma {:induction false} SaneExact(packages: seq<Package>, b: nat, sys: System)
    requires b < |packages| && Judged(packages[b], sys) == Broken
    requires forall i | 0 <= i < b :: Judged(packages[i], sys) != Broken
    ensures Sane(packages, sys) == packages[..b]
    decreases b
  {
    SaneStarts(packages, sys);
    if b > 0 {
      assert Judged(packages[0], sys) != Broken;
      SaneExact(packages[1..], b - 1, sys);
      hide Judged, Sane;
      assert packages[..b] == [packages[0]] + packages[1..][..b - 1];
    }
  }

  /** What an installation touches: a component that is no draft and not installed, with a requested package that counts. */
  lemma InstallTouches(c: Component, uninstalled: set<string>, sys: System, added: set<string>)
    ensures Touched(c, Install, uninstalled, sys, added) <==>
            !c.draft && c.packages.Some? && ComponentStatus(c, uninstalled, sys) != Installed && SomeIn(c.packages.value, sys, added)
  {
    hide Judged, StatusOf;
  }

  /** Once the calculation goes through, the components a removal touches are those it takes out. */
  lemma RemoveIsExact(components: seq<Component>, uninstalled: set<string>, sys: System, gone: set<string>, c: Component)
    requires c in components && !Stops(components, Remove, uninstalled, sys)
    ensures Touched(c, Remove, uninstalled, sys, gone) <==> FlipsOut(c, uninstalled, gone, sys)
  {
    hide Judged, AnyRelevant, AnyBroken, RelevantIn;
    if c.packages.Some? {
      var ps := c.packages.value;
      RelevantUnion(Sane(ps, sys), sys, uninstalled, gone);
      RelevantIsAny(Sane(ps, sys), sys, gone);
    }
  }

  /** What an installation touches contains every component it completes, and when exactly it does complete one. */
  lemma InstallCovers(components: seq<Component>, uninstalled: set<string>, sys: System, added: set<string>, c: Component)
    requires c in components && !Stops(components, Install, uninstalled, sys)
    ensures FlipsIn(c, uninstalled, added, sys) <==>
            Touched(c, Install, uninstalled, sys, added) && !RelevantIn(c.packages.value, sys, uninstalled - added)
  {
    hide Judged, AnyRelevant, AnyBroken, RelevantIn;
    if c.packages.Some? {
      var ps := c.packages.value;
      assert (uninstalled - added) + (uninstalled * added) == uninstalled;
      RelevantUnion(Sane(ps, sys), sys, uninstalled - added, uninstalled * added);
      assert (uninstalled * added) + (added - uninstalled) == added;
      RelevantUnion(Sane(ps, sys), sys, uninstalled * added, added - uninstalled);
      RelevantIsAny(Sane(ps, sys), sys, added);
    }
  }

  /** An installation can touch a component and still leave it incomplete. */
  lemma InstallOverstates()
    ensures exists c, sys, uninstalled, added ::
              Touched(c, Install, uninstalled, sys, added) && !Stops([c], Install, uninstalled, sys)
              && !FlipsIn(c, uninstalled, added, sys)
  {
    var sys := System("x86_64", [], None);
    var a, b := Package("a", None, None, None, None), Package("b", None, None, None, None);
    var c := Component("c", false, Some([a, b]));
    assert Judged(a, sys) == Relevant && Judged(b, sys) == Relevant;
    assert c.packages.value[0] == a && c.packages.value[1] == b;
    assert RelevantIn(c.packages.value, sys, {"a", "b"}) && RelevantIn(c.packages.value, sys, {"a"});
    assert RelevantIn(c.packages.value, sys, {"a", "b"} - {"a"});
    assert Touched(c, Install, {"a", "b"}, sys, {"a"}) && !FlipsIn(c, {"a", "b"}, {"a"}, sys);
  }
}
