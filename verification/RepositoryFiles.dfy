/** Materialising the repository paths that assigned instances refer to, and which requests are reported
    as not found. Archives are values, and writing a file is recorded in the order it is done. */
module RepositoryFiles {
  import opened Collections
  import opened Wrappers
  import opened Text
  import opened Materialization

  datatype Change = Change(path: string, hasContent: bool)
  /** `changes` is nothing when the archive is not on disk. */
  datatype Package = Package(id: string, folder: string, changes: Option<seq<Change>>)
  /** One file written, and the request it was written for. */
  datatype Hit = Hit(folder: string, path: string, request: string)
  datatype Error = UnsafePath(path: string)

  // ---------------------------------------------------------------- path matching

  function SlashesForward(s: string): string {
    seq(|s|, i requires 0 <= i < |s| => if s[i] == '\\' then '/' else s[i])
  }

  function DropDotSlashes(s: string): string {
    if |s| >= 2 && s[..2] == "./" then DropDotSlashes(s[2..]) else s
  }

  function DropLeadingSlashes(s: string): string {
    if s != "" && s[0] == '/' then DropLeadingSlashes(s[1..]) else s
  }

  function DropTrailingSlashes(s: string): string {
    if s != "" && s[|s| - 1] == '/' then DropTrailingSlashes(s[..|s| - 1]) else s
  }

  function NormalizePath(path: string): string {
    DropLeadingSlashes(DropDotSlashes(SlashesForward(Strip(path))))
  }

  predicate EndsWith(s: string, suffix: string) {
    |suffix| <= |s| && s[|s| - |suffix|..] == suffix
  }

  predicate PathMatches(requested: string, candidate: string) {
    var r, c := DropTrailingSlashes(NormalizePath(requested)), NormalizePath(candidate);
    c == r || r + "/" <= c || EndsWith(c, "/" + r) || EndsWith(r, c)
  }

  // ---------------------------------------------------------------- what is written

  /** The request a change counts for: the first that matches. */
  function FirstMatch(requests: seq<string>, path: string): (r: Option<string>)
    ensures r.None? <==> forall i | 0 <= i < |requests| :: !PathMatches(requests[i], path)
    ensures r.Some? ==> exists i | 0 <= i < |requests| ::
              requests[i] == r.value && PathMatches(requests[i], path) && forall j | 0 <= j < i :: !PathMatches(requests[j], path)
  {
    if requests == [] then None
    else if PathMatches(requests[0], path) then Some(requests[0])
    else
      assert forall i | 0 <= i < |requests[1..]| :: requests[1..][i] == requests[i + 1];
      FirstMatch(requests[1..], path)
  }

  predicate Eligible(c: Change) {
    c.hasContent && c.path != ""
  }

  function HitsOf(folder: string, c: Change, requests: seq<string>): seq<Hit> {
    if !Eligible(c) then []
    else
      var m := FirstMatch(requests, c.path);
      if m.None? then [] else [Hit(folder, c.path, m.value)]
  }

  function HitsIn(folder: string, changes: seq<Change>, requests: seq<string>): seq<Hit> {
    if changes == [] then []
    else HitsIn(folder, changes[..|changes| - 1], requests) + HitsOf(folder, changes[|changes| - 1], requests)
  }

  function Hits(packages: seq<Package>, requests: seq<string>): seq<Hit> {
    if packages == [] then []
    else
      var last := packages[|packages| - 1];
      Hits(packages[..|packages| - 1], requests) + if last.changes.None? then [] else HitsIn(last.folder, last.changes.value, requests)
  }

  function FileName(h: Hit): string {
    h.folder + "/" + h.path
  }

  function FileNames(hits: seq<Hit>): seq<string> {
    seq(|hits|, i requires 0 <= i < |hits| => FileName(hits[i]))
  }

  function MissingIds(packages: seq<Package>): seq<string> {
    if packages == [] then []
    else MissingIds(packages[..|packages| - 1]) + if packages[|packages| - 1].changes.None? then [packages[|packages| - 1].id] else []
  }

  function Discharged(hits: seq<Hit>): set<string> {
    set h | h in hits :: h.request
  }

  lemma TakeSnoc(s: seq<string>, x: string)
    ensures Take(s + [x]) == if |Take(s)| < SAMPLE then Take(s) + [x] else Take(s)
  {
  }

  lemma NamesSnoc(hits: seq<Hit>, h: Hit)
    ensures FileNames(hits + [h]) == FileNames(hits) + [FileName(h)]
    ensures Discharged(hits + [h]) == Discharged(hits) + {h.request}
  {
  }

  /** The progress of the loops: what the files written so far account for. */
  ghost predicate Tally(hits: seq<Hit>, requests: seq<string>, filesWritten: nat, samples: seq<string>, notFound: set<string>) {
    && filesWritten == |hits| && samples == Take(FileNames(hits))
    && notFound == Elements(requests) - Discharged(hits)
  }

  lemma TallySnoc(hits: seq<Hit>, h: Hit, requests: seq<string>, filesWritten: nat, samples: seq<string>, notFound: set<string>)
    requires Tally(hits, requests, filesWritten, samples, notFound)
    ensures Tally(hits + [h], requests, filesWritten + 1,
          if |samples| < SAMPLE then samples + [FileName(h)] else samples, notFound - {h.request})
  {
    hide Take, FileNames, Discharged;
    NamesSnoc(hits, h);
    TakeSnoc(FileNames(hits), FileName(h));
  }

  /** `safe` is the check on archive entry names, which raises before anything is written for the entry. */
  method MaterializePackage(folder: string, changes: seq<Change>, requests: seq<string>, safe: string -> bool,
                            ghost done: seq<Hit>, filesWritten0: nat, samples0: seq<string>, notFound0: set<string>)
    returns (error: Option<Error>, filesWritten: nat, samples: seq<string>, notFound: set<string>)
    requires Tally(done, requests, filesWritten0, samples0, notFound0)
    ensures error.None? ==> Tally(done + HitsIn(folder, changes, requests), requests, filesWritten, samples, notFound)
    ensures error.None? <==> forall h | h in HitsIn(folder, changes, requests) :: safe(h.path)
  {
    error, filesWritten, samples, notFound := None, filesWritten0, samples0, notFound0;
    NothingYet(folder, changes, requests, done);
    hide Tally, FirstMatch, HitsIn, Take, FileNames, Discharged;
    for i := 0 to |changes|
      invariant Tally(done + HitsIn(folder, changes[..i], requests), requests, filesWritten, samples, notFound)
      invariant forall h | h in HitsIn(folder, changes[..i], requests) :: safe(h.path)
    {
      var change := changes[i];
      HitsStep(folder, changes, i, requests);
      if !change.hasContent || change.path == "" {
        continue;
      }
      var matched := FirstMatch(requests, change.path);
      if matched.None? {
        continue;
      }
      ghost var hit := Hit(folder, change.path, matched.value);
      assert HitsOf(folder, change, requests) == [hit];
      hide HitsOf;
      if !safe(change.path) {
        HitIsThere(folder, changes, i, requests, hit);
        return Some(UnsafePath(change.path)), filesWritten, samples, notFound;
      }
      HitStep(done, folder, changes, i, requests, hit, filesWritten, samples, notFound);
      filesWritten := filesWritten + 1;
      notFound := notFound - {matched.value};
      if |samples| < SAMPLE {
        samples := samples + [folder + "/" + change.path];
      }
    }
    assert changes[..|changes|] == changes;
  }

  lemma NothingYet(folder: string, changes: seq<Change>, requests: seq<string>, done: seq<Hit>)
    ensures done + HitsIn(folder, changes[..0], requests) == done && HitsIn(folder, changes[..0], requests) == []
  {
  }

  lemma HitIsThere(folder: string, changes: seq<Change>, i: nat, requests: seq<string>, hit: Hit)
    requires i < |changes| && HitsOf(folder, changes[i], requests) == [hit]
    ensures hit in HitsIn(folder, changes, requests)
  {
    hide HitsIn, HitsOf;
    HitsStep(folder, changes, i, requests);
    HitsGrow(folder, changes, i + 1, requests);
    assert hit in HitsIn(folder, changes[..i + 1], requests);
  }

  lemma HitStep(done: seq<Hit>, folder: string, changes: seq<Change>, i: nat, requests: seq<string>, hit: Hit,
                filesWritten: nat, samples: seq<string>, notFound: set<string>)
    requires i < |changes| && HitsOf(folder, changes[i], requests) == [hit]
    requires Tally(done + HitsIn(folder, changes[..i], requests), requests, filesWritten, samples, notFound)
    ensures Tally(done + HitsIn(folder, changes[..i + 1], requests), requests, filesWritten + 1,
                  if |samples| < SAMPLE then samples + [FileName(hit)] else samples, notFound - {hit.request})
    ensures HitsIn(folder, changes[..i + 1], requests) == HitsIn(folder, changes[..i], requests) + [hit]
  {
    hide HitsIn, HitsOf, Tally;
    var before := HitsIn(folder, changes[..i], requests);
    HitsStep(folder, changes, i, requests);
    TallySnoc(done + before, hit, requests, filesWritten, samples, notFound);
    assert done + before + [hit] == done + (before + [hit]);
  }

  lemma HitsStep(folder: string, changes: seq<Change>, i: nat, requests: seq<string>)
    requires i < |changes|
    ensures HitsIn(folder, changes[..i + 1], requests) == HitsIn(folder, changes[..i], requests) + HitsOf(folder, changes[i], requests)
    ensures HitsOf(folder, changes[i], requests) == [] ==> HitsIn(folder, changes[..i + 1], requests) == HitsIn(folder, changes[..i], requests)
  {
    hide HitsOf;
    assert changes[..i + 1][..i] == changes[..i];
  }

  lemma {:induction false} HitsGrow(folder: string, changes: seq<Change>, i: nat, requests: seq<string>)
    requires i <= |changes|
    ensures HitsIn(folder, changes[..i], requests) <= HitsIn(folder, changes, requests)
    decreases |changes|
  {
    if i == |changes| {
      assert changes[..i] == changes;
    } else {
      HitsGrow(folder, changes[..|changes| - 1], i, requests);
      assert changes[..|changes| - 1][..i] == changes[..i];
    }
  }

  lemma PackageStep(packages: seq<Package>, i: nat, requests: seq<string>)
    requires i < |packages|
    ensures packages[i].changes.None? ==>
              && Hits(packages[..i + 1], requests) == Hits(packages[..i], requests)
              && MissingIds(packages[..i + 1]) == MissingIds(packages[..i]) + [packages[i].id]
    ensures packages[i].changes.Some? ==>
              && Hits(packages[..i + 1], requests) == Hits(packages[..i], requests) + HitsIn(packages[i].folder, packages[i].changes.value, requests)
              && MissingIds(packages[..i + 1]) == MissingIds(packages[..i])
  {
    assert packages[..i + 1][..i] == packages[..i];
  }

  lemma {:induction false} AllHitsGrow(packages: seq<Package>, i: nat, requests: seq<string>)
    requires i <= |packages|
    ensures Hits(packages[..i], requests) <= Hits(packages, requests)
    decreases |packages|
  {
    if i == |packages| {
      assert packages[..i] == packages;
    } else {
      AllHitsGrow(packages[..|packages| - 1], i, requests);
      assert packages[..|packages| - 1][..i] == packages[..i];
    }
  }

  /** Every request but the discharged is reported; nothing is reported when an unsafe entry name comes
      up among the files to write. */
  method MaterializeInstanceRepositoryPaths(packages: seq<Package>, requests: seq<string>, safe: string -> bool)
    returns (r: Result<(Outcome, set<string>), Error>)
    ensures r.Ok? <==> requests == [] || forall h | h in Hits(packages, requests) :: safe(h.path)
    ensures r.Ok? && requests == [] ==> r.value == (EMPTY, {})
    ensures r.Ok? && requests != [] ==>
              var hits := Hits(packages, requests);
              && r.value.0.filesWritten == |hits| && r.value.0.packagesRequested == |packages|
              && r.value.0.packagesFound + |MissingIds(packages)| == |packages|
              && r.value.0.packagesMissing == MissingIds(packages) && r.value.0.pathsRequested == requests
              && r.value.0.samplePaths == Take(FileNames(hits))
              && r.value.1 == Elements(requests) - Discharged(hits)
  {
    if requests == [] {
      return Ok((EMPTY, {}));
    }
    var filesWritten, packagesFound, missing, samples := 0, 0, [], [];
    var notFound := Elements(requests);
    NoPackageYet(packages, requests);
    hide Tally, HitsIn, FirstMatch, Take, FileNames, Discharged, Hits, MissingIds, Elements;
    for i := 0 to |packages|
      invariant Tally(Hits(packages[..i], requests), requests, filesWritten, samples, notFound)
      invariant missing == MissingIds(packages[..i]) && packagesFound + |missing| == i
      invariant forall h | h in Hits(packages[..i], requests) :: safe(h.path)
    {
      var source := packages[i];
      PackageStep(packages, i, requests);
      ghost var before := Hits(packages[..i], requests);
      if source.changes.None? {
        missing := missing + [source.id];
      } else {
        packagesFound := packagesFound + 1;
        var error: Option<Error>;
        error, filesWritten, samples, notFound :=
          MaterializePackage(source.folder, source.changes.value, requests, safe, before, filesWritten, samples, notFound);
        if error.Some? {
          UnsafeSomewhere(packages, i, requests, safe);
          return Err(error.value);
        }
      }
    }
    assert packages[..|packages|] == packages;
    TallyIs(Hits(packages, requests), requests, filesWritten, samples, notFound);
    r := Ok((Outcome(filesWritten, |packages|, packagesFound, missing, requests, [], samples, []), notFound));
  }

  lemma NoPackageYet(packages: seq<Package>, requests: seq<string>)
    ensures Tally(Hits(packages[..0], requests), requests, 0, [], Elements(requests))
    ensures Hits(packages[..0], requests) == [] && MissingIds(packages[..0]) == []
  {
  }

  lemma UnsafeSomewhere(packages: seq<Package>, i: nat, requests: seq<string>, safe: string -> bool)
    requires i < |packages| && packages[i].changes.Some?
    requires !(forall h | h in HitsIn(packages[i].folder, packages[i].changes.value, requests) :: safe(h.path))
    ensures !(forall h | h in Hits(packages, requests) :: safe(h.path))
  {
    hide HitsIn, Hits;
    PackageStep(packages, i, requests);
    AllHitsGrow(packages, i + 1, requests);
    var h :| h in HitsIn(packages[i].folder, packages[i].changes.value, requests) && !safe(h.path);
    assert h in Hits(packages[..i + 1], requests);
    assert h in Hits(packages, requests);
  }

  lemma TallyIs(hits: seq<Hit>, requests: seq<string>, filesWritten: nat, samples: seq<string>, notFound: set<string>)
    requires Tally(hits, requests, filesWritten, samples, notFound)
    ensures filesWritten == |hits| && samples == Take(FileNames(hits)) && notFound == Elements(requests) - Discharged(hits)
  {
  }

  // ---------------------------------------------------------------- what "not found" means

  ghost predicate Offered(packages: seq<Package>, c: Change) {
    Eligible(c) && exists i | 0 <= i < |packages| :: packages[i].changes.Some? && c in packages[i].changes.value
  }

  lemma DischargedAppends(a: seq<Hit>, b: seq<Hit>)
    ensures Discharged(a + b) == Discharged(a) + Discharged(b)
  {
  }

  lemma DischargedOf(folder: string, c: Change, requests: seq<string>, request: string)
    ensures request in Discharged(HitsOf(folder, c, requests)) <==> Eligible(c) && FirstMatch(requests, c.path) == Some(request)
  {
    hide FirstMatch, Eligible;
  }

  ghost predicate Taken(changes: seq<Change>, requests: seq<string>, request: string) {
    exists c | c in changes :: Eligible(c) && FirstMatch(requests, c.path) == Some(request)
  }

  lemma TakenSnoc(init: seq<Change>, last: Change, requests: seq<string>, request: string)
    ensures Taken(init + [last], requests, request)
            <==> Taken(init, requests, request) || (Eligible(last) && FirstMatch(requests, last.path) == Some(request))
  {
    hide FirstMatch, Eligible;
    assert forall c :: c in init + [last] <==> c in init || c == last;
  }

  lemma {:induction false} DischargedIn(folder: string, changes: seq<Change>, requests: seq<string>, request: string)
    ensures request in Discharged(HitsIn(folder, changes, requests)) <==> Taken(changes, requests, request)
    decreases |changes|
  {
    hide FirstMatch, HitsOf, Eligible;
    if changes != [] {
      var init, last := changes[..|changes| - 1], changes[|changes| - 1];
      hide Taken, Discharged;
      assert changes == init + [last];
      DischargedIn(folder, init, requests, request);
      DischargedOf(folder, last, requests, request);
      DischargedAppends(HitsIn(folder, init, requests), HitsOf(folder, last, requests));
      TakenSnoc(init, last, requests, request);
    }
  }

  lemma {:induction false} DischargedAre(packages: seq<Package>, requests: seq<string>, request: string)
    ensures request in Discharged(Hits(packages, requests))
            <==> exists c :: Offered(packages, c) && FirstMatch(requests, c.path) == Some(request)
    decreases |packages|
  {
    hide FirstMatch, HitsIn;
    if packages != [] {
      var init, last := packages[..|packages| - 1], packages[|packages| - 1];
      assert packages == init + [last];
      DischargedAre(init, requests, request);
      OfferedSnoc(init, last);
      if last.changes.Some? {
        DischargedIn(last.folder, last.changes.value, requests, request);
        DischargedAppends(Hits(init, requests), HitsIn(last.folder, last.changes.value, requests));
      }
      hide Offered, Eligible, Discharged;
    }
  }

  lemma OfferedSnoc(init: seq<Package>, last: Package)
    ensures forall c :: Offered(init + [last], c) <==> Offered(init, c) || (Eligible(c) && last.changes.Some? && c in last.changes.value)
  {
    forall c: Change
      ensures Offered(init + [last], c) <==> Offered(init, c) || (Eligible(c) && last.changes.Some? && c in last.changes.value)
    {
      var all := init + [last];
      if Offered(init, c) {
        var i :| 0 <= i < |init| && init[i].changes.Some? && c in init[i].changes.value;
        assert all[i] == init[i];
      }
      if Eligible(c) && last.changes.Some? && c in last.changes.value {
        assert all[|init|] == last;
      }
    }
  }

  /** A request is reported as not found although some file matches it exactly when every such file
      matches an earlier request as well, which then takes the file. */
  lemma ReportedThoughMatched(packages: seq<Package>, requests: seq<string>, i: nat)
    requires i < |requests| && requests[i] !in requests[..i]
    ensures requests[i] in Elements(requests) - Discharged(Hits(packages, requests))
            <==> forall c | Offered(packages, c) && PathMatches(requests[i], c.path) :: exists j | 0 <= j < i :: PathMatches(requests[j], c.path)
  {
    DischargedAre(packages, requests, requests[i]);
    hide Offered, Hits, PathMatches, FirstMatch;
    forall c | Offered(packages, c)
      ensures FirstMatch(requests, c.path) == Some(requests[i])
              <==> PathMatches(requests[i], c.path) && forall j | 0 <= j < i :: !PathMatches(requests[j], c.path)
    {
      FirstMatchIs(requests, c.path, i);
    }
  }

  lemma FirstMatchIs(requests: seq<string>, path: string, i: nat)
    requires i < |requests| && requests[i] !in requests[..i]
    ensures FirstMatch(requests, path) == Some(requests[i])
            <==> PathMatches(requests[i], path) && forall j | 0 <= j < i :: !PathMatches(requests[j], path)
  {
    hide PathMatches;
    assert forall j | 0 <= j < i :: requests[j] == requests[..i][j] && requests[j] != requests[i];
    var r := FirstMatch(requests, path);
    if r.Some? {
      var k :| 0 <= k < |requests| && requests[k] == r.value && PathMatches(requests[k], path) && forall j | 0 <= j < k :: !PathMatches(requests[j], path);
      if r.value == requests[i] {
        assert PathMatches(requests[i], path);
      }
    }
  }

  /** A path that normalising leaves alone. */
  predicate Clean(p: string) {
    && p != "" && Trim(p) && '\\' !in p && !("./" <= p)
    && p[0] != '/' && p[|p| - 1] != '/'
  }

  lemma CleanUnchanged(p: string)
    requires Clean(p)
    ensures NormalizePath(p) == p && DropTrailingSlashes(p) == p
  {
    hide IsSpace, Strip, SlashesForward, DropDotSlashes;
    StripOfTrim(p);
    assert SlashesForward(p) == p by { NoBackslash(p); }
    assert DropDotSlashes(p) == p by { NoDotSlash(p); }
  }

  lemma NoBackslash(p: string)
    requires '\\' !in p
    ensures SlashesForward(p) == p
  {
  }

  lemma NoDotSlash(p: string)
    requires !("./" <= p)
    ensures DropDotSlashes(p) == p
  {
    assert |p| >= 2 && p[..2] == "./" ==> "./" <= p;
  }

  /** Asking for a directory and then for a file in it: the file is there and is written, and its own
      request is reported as not found. */
  lemma DirectoryTakesTheFile(directory: string, name: string, folder: string)
    requires Clean(directory) && Clean(directory + ("/" + name))
    ensures var file := directory + ("/" + name);
            var packages := [Package("", folder, Some([Change(file, true)]))];
            var requests := [directory, file];
            && PathMatches(file, file) && Hits(packages, requests) == [Hit(folder, file, directory)]
            && file in Elements(requests) - Discharged(Hits(packages, requests))
  {
    var file := directory + ("/" + name);
    var change := Change(file, true);
    var requests := [directory, file];
    MatchesInDirectory(directory, name);
    hide PathMatches;
    assert FirstMatch(requests, file) == Some(directory);
    OneFile(folder, change, requests);
  }

  lemma MatchesInDirectory(directory: string, name: string)
    requires Clean(directory) && Clean(directory + ("/" + name))
    ensures PathMatches(directory, directory + ("/" + name))
    ensures PathMatches(directory + ("/" + name), directory + ("/" + name))
  {
    hide NormalizePath, Clean;
    var file := directory + ("/" + name);
    CleanUnchanged(directory);
    CleanUnchanged(file);
    assert (directory + "/") + name == file;
  }

  lemma OneFile(folder: string, c: Change, requests: seq<string>)
    requires Eligible(c) && FirstMatch(requests, c.path).Some?
    ensures var hit := Hit(folder, c.path, FirstMatch(requests, c.path).value);
            var packages := [Package("", folder, Some([c]))];
            Hits(packages, requests) == [hit] && Discharged(Hits(packages, requests)) == {hit.request}
  {
    hide FirstMatch;
    assert [c][..0] == [] && [Package("", folder, Some([c]))][..0] == [];
    assert HitsIn(folder, [c], requests) == HitsOf(folder, c, requests);
  }

  // ---------------------------------------------------------------- what is written, counted

  /** A change that is written: it has content and a path, and some request matches it. */
  ghost predicate Wanted(c: Change, requests: seq<string>) {
    c.hasContent && c.path != "" && exists i | 0 <= i < |requests| :: PathMatches(requests[i], c.path)
  }

  /** The wanted changes, in order. */
  ghost function WantedOf(changes: seq<Change>, requests: seq<string>): seq<Change> {
    if changes == [] then []
    else
      var last := changes[|changes| - 1];
      WantedOf(changes[..|changes| - 1], requests) + if Wanted(last, requests) then [last] else []
  }

  ghost function ListedNames(folder: string, changes: seq<Change>): seq<string> {
    seq(|changes|, i requires 0 <= i < |changes| => folder + "/" + changes[i].path)
  }

  lemma ListedSnoc(folder: string, changes: seq<Change>, c: Change)
    ensures ListedNames(folder, changes + [c]) == ListedNames(folder, changes) + [folder + "/" + c.path]
  {
  }

  lemma HitOfWanted(folder: string, c: Change, requests: seq<string>)
    ensures FileNames(HitsOf(folder, c, requests)) == if Wanted(c, requests) then [folder + "/" + c.path] else []
  {
    hide PathMatches, FirstMatch;
  }

  lemma NamesAppend(a: seq<Hit>, b: seq<Hit>)
    ensures FileNames(a + b) == FileNames(a) + FileNames(b)
  {
  }

  /** One file per wanted change of an archive, in order, under the folder of the archive. */
  lemma {:induction false} PackageWritesWanted(folder: string, changes: seq<Change>, requests: seq<string>)
    ensures FileNames(HitsIn(folder, changes, requests)) == ListedNames(folder, WantedOf(changes, requests))
    decreases |changes|
  {
    hide Wanted, HitsOf;
    if changes != [] {
      var init, last := changes[..|changes| - 1], changes[|changes| - 1];
      PackageWritesWanted(folder, init, requests);
      HitOfWanted(folder, last, requests);
      NamesAppend(HitsIn(folder, init, requests), HitsOf(folder, last, requests));
      ListedSnoc(folder, WantedOf(init, requests), last);
    }
  }

  ghost function WrittenNames(packages: seq<Package>, requests: seq<string>): seq<string> {
    if packages == [] then []
    else
      var last := packages[|packages| - 1];
      WrittenNames(packages[..|packages| - 1], requests)
      + if last.changes.Some? then ListedNames(last.folder, WantedOf(last.changes.value, requests)) else []
  }

  /** Over all archives on disk: one file per wanted change, in order. */
  lemma {:induction false} FilesWritten(packages: seq<Package>, requests: seq<string>)
    ensures FileNames(Hits(packages, requests)) == WrittenNames(packages, requests)
    decreases |packages|
  {
    hide WantedOf, HitsIn;
    if packages != [] {
      var init, last := packages[..|packages| - 1], packages[|packages| - 1];
      FilesWritten(init, requests);
      if last.changes.Some? {
        PackageWritesWanted(last.folder, last.changes.value, requests);
        NamesAppend(Hits(init, requests), HitsIn(last.folder, last.changes.value, requests));
      }
    }
  }

  /** An archive is missing exactly if it is not on disk, and is named once for each time it is asked for. */
  lemma {:induction false} MissingAre(packages: seq<Package>)
    ensures |MissingIds(packages)| == |set i | 0 <= i < |packages| && packages[i].changes.None?|
    ensures forall id :: id in MissingIds(packages) <==> exists i | 0 <= i < |packages| :: packages[i].changes.None? && packages[i].id == id
    decreases |packages|
  {
    if packages != [] {
      var init, m := packages[..|packages| - 1], |packages| - 1;
      MissingAre(init);
      var before := set i | 0 <= i < |init| && init[i].changes.None?;
      assert (set i | 0 <= i < |packages| && packages[i].changes.None?) == if packages[m].changes.None? then before + {m} else before;
    }
  }

  // ---------------------------------------------------------------- what matches

  /** Between paths in normal form a request matches the file itself, everything in it as a directory, files at
      the end of which it stands after a slash, and files that stand at its own end. */
  lemma CleanMatches(requested: string, candidate: string)
    requires Clean(requested) && Clean(candidate)
    ensures PathMatches(requested, candidate) <==>
            || candidate == requested
            || (exists name :: candidate == requested + ("/" + name))
            || (exists directory :: candidate == directory + ("/" + requested))
            || (exists directory :: requested == directory + candidate)
  {
    CleanUnchanged(requested);
    CleanUnchanged(candidate);
    hide Clean, NormalizePath, DropTrailingSlashes;
    PrefixMeans(requested + "/", candidate);
    SuffixMeans(candidate, "/" + requested);
    SuffixMeans(requested, candidate);
    forall name
      ensures requested + "/" + name == requested + ("/" + name)
    {
    }
  }

  lemma PrefixMeans(prefix: string, s: string)
    ensures prefix <= s <==> exists rest :: s == prefix + rest
  {
    if prefix <= s {
      assert s == prefix + s[|prefix|..];
    }
  }

  lemma SuffixMeans(s: string, suffix: string)
    ensures EndsWith(s, suffix) <==> exists start :: s == start + suffix
  {
    if EndsWith(s, suffix) {
      assert s == s[..|s| - |suffix|] + suffix;
    }
  }

  /** A path that only has to lose a dot and a slash, or a slash, before it. */
  lemma NormalFrom(path: string, p: string)
    requires Clean(p) && Trim(path) && SlashesForward(path) in [p, "./" + p, "/" + p]
    ensures NormalizePath(path) == p
  {
    CleanUnchanged(p);
    hide IsSpace, Strip, SlashesForward;
    StripOfTrim(path);
    NoDotSlash(p);
    assert ("./" + p)[2..] == p && ("./" + p)[..2] == "./" && ("/" + p)[1..] == p;
  }

  lemma TrailingSlash(p: string)
    requires Clean(p) && p != "."
    ensures DropTrailingSlashes(NormalizePath(p + "/")) == p
  {
    hide IsSpace, Strip, SlashesForward;
    SlashIsInk();
    StripOfTrim(p + "/");
    NoBackslash(p + "/");
    assert !("./" <= p + "/") by { assert (p + "/")[0] == p[0] && (|p| > 1 ==> (p + "/")[1] == p[1]); }
    NoDotSlash(p + "/");
    assert (p + "/")[..|p|] == p;
  }

  lemma SlashIsInk()
    ensures !IsSpace('/') && !IsSpace('.')
  {
  }

  /** How a path is written makes no difference: with white space before or after it, a dot and a slash or a slash before
      it, backslashes for slashes, or, for a request, a slash after it. */
  lemma SpellingsMatch(p: string, path: string, blanks: string)
    requires Clean(p) && Blank(blanks)
    requires Trim(path) && SlashesForward(path) == p
    ensures NormalizePath(path) == p && NormalizePath("./" + p) == p && NormalizePath("/" + p) == p
    ensures NormalizePath(blanks + p) == p && NormalizePath(p + blanks) == p
    ensures p != "." ==> DropTrailingSlashes(NormalizePath(p + "/")) == p
  {
    hide IsSpace, Strip, SlashesForward, NormalizePath, DropTrailingSlashes, Blank;
    SlashIsInk();
    NoBackslash("./" + p);
    NoBackslash("/" + p);
    NormalFrom(path, p);
    NormalFrom("./" + p, p);
    NormalFrom("/" + p, p);
    BlanksAround(p, blanks);
    if p != "." {
      TrailingSlash(p);
    }
  }

  lemma BlanksAround(p: string, blanks: string)
    requires Clean(p) && Blank(blanks)
    ensures NormalizePath(blanks + p) == p && NormalizePath(p + blanks) == p
  {
    CleanUnchanged(p);
    StripOfTrim(p);
    StripDropsBlanks(p, blanks);
    hide Strip;
  }
}
