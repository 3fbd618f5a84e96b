/** The CentOS operating-system plugin: validation of a report's package
    list, the package rows a report stores, the release statuses read from
    the configuration, the affected-package name matcher and the repository
    URLs of a release. */
module CentOS {
  import opened Wrappers
  import opened Text

  /** One entry of a report's package list, as decoded from JSON: any key
      may be missing. */
  datatype PackageEntry = PackageEntry(
    name: Option<string>,
    epoch: Option<int>,
    version: Option<string>,
    release: Option<string>,
    architecture: Option<string>,
    role: Option<string>)

  /** Column widths of `Package.name`, `Build.version`, `Build.release` and
      `Arch.name`. */
  datatype PackageLimits = PackageLimits(nameLen: nat, versionLen: nat, releaseLen: nat, archLen: nat)

  // ---------------------------------------------------------------------
  // `packages_checker` and `validate_packages`

  /** A non-empty run of ASCII letters, digits, `_` and the characters of
      `extra`, as the checker's patterns `^[a-zA-Z0-9_...]+$` ask. */
  predicate WordsAnd(s: string, extra: string)
  {
    |s| > 0 && forall i :: 0 <= i < |s| ==> IsWordChar(s[i]) || s[i] in extra
  }

  predicate FieldOk(v: Option<string>, extra: string, maxLen: nat)
  {
    v.Some? && WordsAnd(v.value, extra) && |v.value| <= maxLen
  }

  predicate EntrySchemaOk(e: PackageEntry, lim: PackageLimits)
  {
    && FieldOk(e.name, "-.+~", lim.nameLen)
    && e.epoch.Some? && e.epoch.value >= 0
    && FieldOk(e.version, ".+~", lim.versionLen)
    && FieldOk(e.release, ".+", lim.releaseLen)
    && FieldOk(e.architecture, "", lim.archLen)
  }

  predicate PackagesSchemaOk(ps: seq<PackageEntry>, lim: PackageLimits)
  {
    forall i :: 0 <= i < |ps| ==> EntrySchemaOk(ps[i], lim)
  }

  /** `pkg_roles` */
  const PkgRoles := ["affected", "related", "selinux_policy"]

  const PackageSchemaViolation := "package list does not match the CentOS schema"
  const RoleNotAllowed := "Only the following package roles are allowed: affected, related, selinux_policy"
  const NoAffectedPackage := "uReport must contain affected package"

  predicate RoleAllowed(e: PackageEntry)
  {
    e.role.None? || e.role.value in PkgRoles
  }

  predicate Affected(e: PackageEntry)
  {
    e.role == Some("affected")
  }

  /** The checker first, then every role must be one of `pkg_roles`, then an
      affected package is required unless unpackaged reports are allowed. */
  method ValidatePackages(ps: seq<PackageEntry>, lim: PackageLimits, allowUnpackaged: bool)
    returns (r: Result<bool>)
    ensures r.Ok? <==> && PackagesSchemaOk(ps, lim)
                       && (forall i :: 0 <= i < |ps| ==> RoleAllowed(ps[i]))
                       && (allowUnpackaged || exists i :: 0 <= i < |ps| && Affected(ps[i]))
    ensures r.Ok? ==> r.value
    ensures r.Err? && !PackagesSchemaOk(ps, lim) ==> r.msg == PackageSchemaViolation
    ensures r.Err? && PackagesSchemaOk(ps, lim) && (exists i :: 0 <= i < |ps| && !RoleAllowed(ps[i])) ==>
              r.msg == RoleNotAllowed
    ensures r.Err? && PackagesSchemaOk(ps, lim) && (forall i :: 0 <= i < |ps| ==> RoleAllowed(ps[i])) ==>
              r.msg == NoAffectedPackage
  {
    if !PackagesSchemaOk(ps, lim) {
      return Err(PackageSchemaViolation);
    }
    var affected := false;
    for i := 0 to |ps|
      invariant forall j :: 0 <= j < i ==> RoleAllowed(ps[j])
      invariant affected <==> exists j :: 0 <= j < i && Affected(ps[j])
    {
      if ps[i].role.Some? {
        if ps[i].role.value !in PkgRoles {
          return Err(RoleNotAllowed);
        }
        if ps[i].role.value == "affected" {
          affected := true;
        }
      }
    }
    if !(affected || allowUnpackaged) {
      return Err(NoAffectedPackage);
    }
    r := Ok(true);
  }

  // ---------------------------------------------------------------------
  // `_save_packages`

  /** The role a package row is stored with. */
  function RoleType(role: Option<string>): (t: string)
    ensures t == "CRASHED" <==> role == Some("affected")
    ensures t == "SELINUX_POLICY" <==> role == Some("selinux_policy")
    ensures t == "RELATED" <==> role != Some("affected") && role != Some("selinux_policy")
  {
    if role == Some("affected") then "CRASHED"
    else if role == Some("selinux_policy") then "SELINUX_POLICY"
    else "RELATED"
  }

  /** On a validated list, "RELATED" is stored exactly for the entries with
      no role or the role "related". */
  lemma RoleTypeOfAllowed(e: PackageEntry)
    requires RoleAllowed(e)
    ensures RoleType(e.role) == "RELATED" <==> e.role.None? || e.role == Some("related")
  {
  }

  /** The identity of a package: name, epoch, version, release, architecture. */
  datatype Nevra = Nevra(name: string, epoch: int, version: string, release: string, arch: string)

  predicate Complete(e: PackageEntry)
  {
    e.name.Some? && e.epoch.Some? && e.version.Some? && e.release.Some? && e.architecture.Some?
  }

  function NevraOf(e: PackageEntry): Nevra
    requires Complete(e)
  {
    Nevra(e.name.value, e.epoch.value, e.version.value, e.release.value, e.architecture.value)
  }

  /** A row added to the session: a `ReportPackage` of an installed package
      or a `ReportUnknownPackage`, with its type and count. */
  datatype NewRow =
    | NewReportPackage(nevra: Nevra, kind: string, count: int)
    | NewUnknownPackage(nevra: Nevra, kind: string, count: int)

  /** The package rows of one report. Lookups see the committed rows only;
      the rows a call creates are added to the session and are not visible
      to the lookups of the same call. */
  class PackageTables {
    /** The installed packages `get_package_by_nevra` finds. */
    const installed: set<Nevra>
    /** The architectures `get_arch_by_name` finds. */
    const arches: set<string>
    /** The counts of the report's committed `ReportPackage` rows, by package. */
    var reportPackages: map<Nevra, int>
    /** The counts of the report's committed `ReportUnknownPackage` rows, by
        (type, package). */
    var unknownPackages: map<(string, Nevra), int>
    /** The rows added to the session, in order. */
    var added: seq<NewRow>

    constructor (installed: set<Nevra>, arches: set<string>,
                 reportPackages: map<Nevra, int>, unknownPackages: map<(string, Nevra), int>)
      ensures this.installed == installed && this.arches == arches
      ensures this.reportPackages == reportPackages && this.unknownPackages == unknownPackages
      ensures added == []
    {
      this.installed := installed;
      this.arches := arches;
      this.reportPackages := reportPackages;
      this.unknownPackages := unknownPackages;
      added := [];
    }

    /** The row one entry creates, given the keys of the committed rows: a
        report package for an installed package without a row, an unknown
        package for a package that is not installed, has no row of that
        type and whose architecture is known; nothing otherwise. */
    function RowFor(e: PackageEntry, count: int, known: set<Nevra>, unknown: set<(string, Nevra)>)
      : (r: Option<NewRow>)
      requires Complete(e)
      ensures r.Some? <==> || (NevraOf(e) in installed && NevraOf(e) !in known)
                           || (&& NevraOf(e) !in installed
                               && (RoleType(e.role), NevraOf(e)) !in unknown
                               && e.architecture.value in arches)
      ensures r.Some? ==> && r.value.nevra == NevraOf(e)
                          && r.value.kind == RoleType(e.role)
                          && r.value.count == count
                          && (r.value.NewReportPackage? <==> NevraOf(e) in installed)
    {
      var n := NevraOf(e);
      var role := RoleType(e.role);
      if n !in installed then
        if (role, n) in unknown || n.arch !in arches then None
        else Some(NewUnknownPackage(n, role, 0 + count))
      else if n in known then None
      else Some(NewReportPackage(n, role, 0 + count))
    }

    /** The rows a package list creates, entry by entry. */
    function NewRows(es: seq<PackageEntry>, count: int, known: set<Nevra>, unknown: set<(string, Nevra)>)
      : seq<NewRow>
      requires forall i :: 0 <= i < |es| ==> Complete(es[i])
    {
      if |es| == 0 then []
      else
        var init := NewRows(es[..|es| - 1], count, known, unknown);
        match RowFor(es[|es| - 1], count, known, unknown)
        case None => init
        case Some(row) => init + [row]
    }

    /** The entry at `i` creates `row`. */
    predicate CreatedBy(es: seq<PackageEntry>, i: int, count: int, known: set<Nevra>,
                        unknown: set<(string, Nevra)>, row: NewRow)
      requires forall j :: 0 <= j < |es| ==> Complete(es[j])
    {
      0 <= i < |es| && RowFor(es[i], count, known, unknown) == Some(row)
    }

    /** A created row comes from one entry, and every entry that creates a
        row has it among the created rows. */
    lemma {:induction false} NewRowsMembers(es: seq<PackageEntry>, count: int, known: set<Nevra>,
                                            unknown: set<(string, Nevra)>, row: NewRow)
      requires forall i :: 0 <= i < |es| ==> Complete(es[i])
      ensures row in NewRows(es, count, known, unknown) <==>
                exists i :: CreatedBy(es, i, count, known, unknown, row)
    {
      if |es| > 0 {
        var init := es[..|es| - 1];
        NewRowsMembers(init, count, known, unknown, row);
        if exists i :: CreatedBy(init, i, count, known, unknown, row) {
          var i :| CreatedBy(init, i, count, known, unknown, row);
          assert es[i] == init[i];
          assert CreatedBy(es, i, count, known, unknown, row);
        }
        if exists i :: CreatedBy(es, i, count, known, unknown, row) {
          var i :| CreatedBy(es, i, count, known, unknown, row);
          if i < |init| {
            assert init[i] == es[i];
            assert CreatedBy(init, i, count, known, unknown, row);
          }
        }
        if RowFor(es[|es| - 1], count, known, unknown) == Some(row) {
          assert CreatedBy(es, |es| - 1, count, known, unknown, row);
        }
      }
    }

    /** Every created row starts at `count`, and a package that is not
        installed and whose architecture is unknown gets no row. */
    lemma CreatedRows(es: seq<PackageEntry>, count: int, known: set<Nevra>, unknown: set<(string, Nevra)>)
      requires forall i :: 0 <= i < |es| ==> Complete(es[i])
      ensures forall row :: row in NewRows(es, count, known, unknown) ==> row.count == count
      ensures forall row :: row in NewRows(es, count, known, unknown) ==>
                row.nevra in installed || row.nevra.arch in arches
    {
      forall row | row in NewRows(es, count, known, unknown)
        ensures row.count == count && (row.nevra in installed || row.nevra.arch in arches)
      {
        NewRowsMembers(es, count, known, unknown, row);
        var i :| CreatedBy(es, i, count, known, unknown, row);
      }
    }

    /** The entries that find the committed report package of `n`. */
    function KnownHits(es: seq<PackageEntry>, n: Nevra): nat
      requires forall i :: 0 <= i < |es| ==> Complete(es[i])
    {
      if |es| == 0 then 0
      else KnownHits(es[..|es| - 1], n) + if NevraOf(es[|es| - 1]) == n && n in installed then 1 else 0
    }

    /** The entries that find the committed unknown package `key`. */
    function UnknownHits(es: seq<PackageEntry>, key: (string, Nevra)): nat
      requires forall i :: 0 <= i < |es| ==> Complete(es[i])
    {
      if |es| == 0 then 0
      else
        var e := es[|es| - 1];
        UnknownHits(es[..|es| - 1], key) +
          if NevraOf(e) !in installed && (RoleType(e.role), NevraOf(e)) == key then 1 else 0
    }

    /** What the entries add to the committed report package of `n`. */
    function KnownGain(es: seq<PackageEntry>, n: Nevra, count: int): int
      requires forall i :: 0 <= i < |es| ==> Complete(es[i])
    {
      if |es| == 0 then 0
      else KnownGain(es[..|es| - 1], n, count) + if NevraOf(es[|es| - 1]) == n && n in installed then count else 0
    }

    function UnknownGain(es: seq<PackageEntry>, key: (string, Nevra), count: int): int
      requires forall i :: 0 <= i < |es| ==> Complete(es[i])
    {
      if |es| == 0 then 0
      else
        var e := es[|es| - 1];
        UnknownGain(es[..|es| - 1], key, count) +
          if NevraOf(e) !in installed && (RoleType(e.role), NevraOf(e)) == key then count else 0
    }

    lemma {:induction false} GainIsProduct(es: seq<PackageEntry>, n: Nevra, key: (string, Nevra), count: int)
      requires forall i :: 0 <= i < |es| ==> Complete(es[i])
      ensures KnownGain(es, n, count) == count * KnownHits(es, n)
      ensures UnknownGain(es, key, count) == count * UnknownHits(es, key)
    {
      if |es| > 0 {
        GainIsProduct(es[..|es| - 1], n, key, count);
      }
    }

    /** The rows, counts and additions after the entries before `i`. */
    ghost predicate SavedUpTo(es: seq<PackageEntry>, i: nat, count: int,
                              rp0: map<Nevra, int>, up0: map<(string, Nevra), int>, added0: seq<NewRow>,
                              rp: map<Nevra, int>, up: map<(string, Nevra), int>, added: seq<NewRow>)
      requires i <= |es| && forall j :: 0 <= j < |es| ==> Complete(es[j])
    {
      && rp.Keys == rp0.Keys && up.Keys == up0.Keys
      && (forall n :: n in rp ==> rp[n] == rp0[n] + KnownGain(es[..i], n, count))
      && (forall k :: k in up ==> up[k] == up0[k] + UnknownGain(es[..i], k, count))
      && added == added0 + NewRows(es[..i], count, rp0.Keys, up0.Keys)
    }

    /** The entry at `i` is saved: its committed row gains `count`, or its
        new row is added. */
    lemma SavedStep(es: seq<PackageEntry>, i: nat, count: int,
                    rp0: map<Nevra, int>, up0: map<(string, Nevra), int>, added0: seq<NewRow>,
                    rp: map<Nevra, int>, up: map<(string, Nevra), int>, added: seq<NewRow>)
      requires i < |es| && forall j :: 0 <= j < |es| ==> Complete(es[j])
      requires SavedUpTo(es, i, count, rp0, up0, added0, rp, up, added)
      ensures var e := es[i];
              var n := NevraOf(e);
              var key := (RoleType(e.role), n);
              SavedUpTo(es, i + 1, count, rp0, up0, added0,
                        if n in installed && n in rp then rp[n := rp[n] + count] else rp,
                        if n !in installed && key in up then up[key := up[key] + count] else up,
                        match RowFor(e, count, rp0.Keys, up0.Keys)
                        case None => added
                        case Some(row) => added + [row])
    {
      assert es[..i + 1][..i] == es[..i];
    }

    /** Every committed row an entry finds gains `count`, and every entry
        without a committed row creates its row with `count` (a new row
        starts at 0). No committed row appears or disappears. */
    method SavePackages(es: seq<PackageEntry>, count: int)
      requires forall i :: 0 <= i < |es| ==> Complete(es[i])
      modifies this
      ensures reportPackages.Keys == old(reportPackages.Keys)
      ensures forall n :: n in reportPackages ==>
                reportPackages[n] == old(reportPackages[n]) + count * KnownHits(es, n)
      ensures unknownPackages.Keys == old(unknownPackages.Keys)
      ensures forall k :: k in unknownPackages ==>
                unknownPackages[k] == old(unknownPackages[k]) + count * UnknownHits(es, k)
      ensures added == old(added) + NewRows(es, count, old(reportPackages.Keys), old(unknownPackages.Keys))
    {
      ghost var rp0, up0, added0 := reportPackages, unknownPackages, added;
      for i := 0 to |es|
        invariant SavedUpTo(es, i, count, rp0, up0, added0, reportPackages, unknownPackages, added)
      {
        SavedStep(es, i, count, rp0, up0, added0, reportPackages, unknownPackages, added);
        var e := es[i];
        var n := Nevra(e.name.value, e.epoch.value, e.version.value, e.release.value, e.architecture.value);
        var role := RoleType(e.role);
        if n !in installed {
          if (role, n) in unknownPackages {
            unknownPackages := unknownPackages[(role, n) := unknownPackages[(role, n)] + count];
          } else if n.arch in arches {
            added := added + [NewUnknownPackage(n, role, 0 + count)];
          }
          continue;
        }
        if n in reportPackages {
          reportPackages := reportPackages[n := reportPackages[n] + count];
        } else {
          added := added + [NewReportPackage(n, role, 0 + count)];
        }
      }
      assert es[..|es|] == es;
      forall n | n in reportPackages
        ensures reportPackages[n] == old(reportPackages[n]) + count * KnownHits(es, n)
      {
        GainIsProduct(es, n, ("", n), count);
      }
      forall k | k in unknownPackages
        ensures unknownPackages[k] == old(unknownPackages[k]) + count * UnknownHits(es, k)
      {
        GainIsProduct(es, k.1, k, count);
      }
    }
  }

  // ---------------------------------------------------------------------
  // `get_releases`

  const Eol := "EOL"
  const Active := "ACTIVE"
  /** `re.findall` on a missing configuration value. */
  const NotAString := "TypeError: expected string or bytes-like object"

  function TokenSet(s: string): set<string>
  {
    set t | t in FindTokens(s)
  }

  /** Every release named in either list has a status, and it is ACTIVE
      exactly when the active list names it, so a release in both lists is
      active. */
  method GetReleases(inactive: Option<string>, active: Option<string>)
    returns (r: Result<map<string, string>>)
    ensures r.Ok? <==> inactive.Some? && active.Some?
    ensures r.Err? ==> r.msg == NotAString
    ensures r.Ok? ==> r.value.Keys == TokenSet(inactive.value) + TokenSet(active.value)
    ensures r.Ok? ==> forall k :: k in r.value ==>
              r.value[k] == if k in FindTokens(active.value) then Active else Eol
  {
    if inactive.None? {
      return Err(NotAString);
    }
    var result: map<string, string> := map[];
    var eol := FindTokens(inactive.value);
    for i := 0 to |eol|
      invariant result.Keys == set j | 0 <= j < i :: eol[j]
      invariant forall k :: k in result ==> result[k] == Eol
    {
      result := result[eol[i] := Eol];
    }
    if active.None? {
      return Err(NotAString);
    }
    var act := FindTokens(active.value);
    for i := 0 to |act|
      invariant result.Keys == TokenSet(inactive.value) + set j | 0 <= j < i :: act[j]
      invariant forall k :: k in result ==> result[k] == if k in act[..i] then Active else Eol
    {
      result := result[act[i] := Active];
      assert act[..i + 1] == act[..i] + [act[i]];
    }
    assert act[..|act|] == act;
    r := Ok(result);
  }

  // ---------------------------------------------------------------------
  // `check_pkgname_match`

  /** The role equals "affected" ignoring case. */
  predicate AffectedIgnoringCase(e: PackageEntry)
  {
    e.role.Some? && Lower(e.role.value) == "affected"
  }

  predicate HasNvra(e: PackageEntry)
  {
    e.name.Some? && e.version.Some? && e.release.Some? && e.architecture.Some?
  }

  /** `name-version-release.arch` */
  function NvraString(e: PackageEntry): string
    requires HasNvra(e)
  {
    e.name.value + "-" + e.version.value + "-" + e.release.value + "." + e.architecture.value
  }

  /** True exactly when the NVRA of some affected package matches. */
  function PkgnameMatch(ps: seq<PackageEntry>, matches: string -> bool): (r: bool)
    requires forall i :: 0 <= i < |ps| && AffectedIgnoringCase(ps[i]) ==> HasNvra(ps[i])
    ensures r <==> exists i :: 0 <= i < |ps| && AffectedIgnoringCase(ps[i]) && matches(NvraString(ps[i]))
  {
    if |ps| == 0 then false
    else if AffectedIgnoringCase(ps[0]) && matches(NvraString(ps[0])) then true
    else
      var r := PkgnameMatch(ps[1..], matches);
      assert forall i :: 0 < i < |ps| ==> ps[i] == ps[1..][i - 1];
      r
  }

  /** On a validated list the case-insensitive test and the exact test of
      `validate_packages` agree. */
  lemma AffectedOfAllowed(e: PackageEntry)
    requires RoleAllowed(e)
    ensures AffectedIgnoringCase(e) <==> Affected(e)
  {
    if e.role.Some? {
      if e.role.value == "related" {
        assert Lower(e.role.value)[0] == 'r';
      } else if e.role.value == "selinux_policy" {
        assert Lower(e.role.value)[0] == 's';
      } else {
        assert Lower("affected") == "affected";
      }
    }
  }

  // ---------------------------------------------------------------------
  // `get_components`

  const ReleaseVar := "$releasever"

  /** The repository URLs of a release; none when no URL is configured. */
  function ReleaseUrls(repoUrls: seq<string>, release: string): (urls: seq<string>)
    ensures |urls| == |repoUrls|
  {
    seq(|repoUrls|, i requires 0 <= i < |repoUrls| => ReplaceAll(repoUrls[i], ReleaseVar, release))
  }

  /** A URL written as pieces around `$releasever` gets the release in each
      place, and a URL without it is kept as it is. */
  lemma ReleaseUrlsOfTemplates(templates: seq<seq<string>>, release: string)
    requires forall i, j :: 0 <= i < |templates| && 0 <= j < |templates[i]| ==> '$' !in templates[i][j]
    ensures var urls := ReleaseUrls(seq(|templates|, i requires 0 <= i < |templates| => Join(templates[i], ReleaseVar)), release);
            forall i :: 0 <= i < |templates| ==> urls[i] == Join(templates[i], release)
  {
    forall i | 0 <= i < |templates| ensures ReplaceAll(Join(templates[i], ReleaseVar), ReleaseVar, release) == Join(templates[i], release) {
      ReplaceJoin(templates[i], ReleaseVar, release);
    }
  }
}
