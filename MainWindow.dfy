/**
 * The main window of the blocker with its user-interface shell taken away: the
 * two block lists, the hosts-file content they are mirrored into, the persisted
 * list files, the unblock-attempt ledger, the in-memory password hash, and the
 * event handlers that change them.
 *
 * Everything the handlers ask of the outside world is a parameter: the time of
 * day and the day number read from the clock (one reading serves both the
 * period test and the hour bucket of the limiter), whether the process runs with
 * administrator rights, the password typed into the prompt, the outcome of the
 * challenge dialog, the text or selection in the window, and the running
 * processes. SHA-256 over the UTF-8 bytes is a function fixed at construction.
 */
module Blocker {
  import opened Framework
  import opened Schedule
  import Hosts
  import RateLimit
  import HexFormat

  /** What a handler did, or which check stopped it. */
  datatype Outcome =
    | RestartedAsAdmin      // not elevated: the application relaunches itself elevated and shuts down
    | AuthenticationFailed  // inside the blocking period and the password prompt was not passed
    | RateLimited           // `CanAttemptUnblock` refused
    | ChallengeFailed       // the challenge dialog closed without completion
    | EmptyInput            // the trimmed text box is empty
    | NoSelection           // nothing is selected in the list box
    | AlreadyBlocked        // the selected application is already on the list
    | Blocked(name: string)
    | Unblocked(name: string)

  // ---------------------------------------------------------------------------
  // Block-list edits

  /** The list edit of `BlockWebsite` and `BlockSelectedAppButton_Click`: append unless present ignoring case. */
  function AddIfAbsent(list: seq<string>, name: string): (r: seq<string>) {
    if ContainsIgnoreCase(list, name) then list else list + [name]
  }

  /** The list edit of `UnblockWebsite`: a case-insensitive guard, then an ordinal `Remove`. */
  function RemoveIfPresent(list: seq<string>, name: string): (r: seq<string>) {
    if ContainsIgnoreCase(list, name) then RemoveFirst(list, name) else list
  }

  /**
   * Adding keeps every earlier entry where it was, and afterwards the name is on
   * the list ignoring case; the list grows by the name at the end exactly when
   * no entry matched it ignoring case.
   */
  lemma AddIfAbsentSpec(list: seq<string>, name: string)
    ensures var r := AddIfAbsent(list, name);
      && r[..|list|] == list
      && ContainsIgnoreCase(r, name)
      && (r == list + [name] <==> !ContainsIgnoreCase(list, name))
      && (r == list <==> ContainsIgnoreCase(list, name))
  {
    var r := AddIfAbsent(list, name);
    if !ContainsIgnoreCase(list, name) {
      assert r[|list|] == name;
      assert EqualsIgnoreCase(r[|list|], name);
      ContainsIgnoreCaseAt(r, name, |list|);
      assert r != list;
    } else {
      assert r != list + [name];
    }
  }

  /** A list without case-insensitive duplicates stays so under `AddIfAbsent`. */
  lemma AddIfAbsentKeepsDistinct(list: seq<string>, name: string)
    requires DistinctIgnoreCase(list)
    ensures DistinctIgnoreCase(AddIfAbsent(list, name))
  {
    ContainsIgnoreCaseIff(list, name);
  }

  /** Appending without the check, as `BlockAppButton_Click` does, duplicates a name already present. */
  lemma AppendAlwaysCanDuplicate(list: seq<string>, name: string)
    requires ContainsIgnoreCase(list, name)
    ensures !DistinctIgnoreCase(list + [name])
  {
    ContainsIgnoreCaseIff(list, name);
    var i :| 0 <= i < |list| && EqualsIgnoreCase(list[i], name);
    var r := list + [name];
    assert r[i] == list[i] && r[|list|] == name;
  }

  /**
   * Unblocking a name that is on the list with the same case removes its first
   * occurrence and keeps the rest in order.
   */
  lemma RemoveIfPresentExact(list: seq<string>, name: string)
    requires name in list
    ensures var k := FirstIndex(list, name);
      RemoveIfPresent(list, name) == list[..k] + list[k + 1..]
  {
    MemberContainsIgnoreCase(list, name);
  }

  /**
   * The case quirk: when the list holds the name only in a different case, the
   * case-insensitive guard passes but the ordinal removal finds nothing.
   */
  lemma RemoveIfPresentCaseQuirk(list: seq<string>, name: string)
    requires name !in list
    ensures RemoveIfPresent(list, name) == list
  {
  }

  /** For instance, `Example.com` is not unblocked by `example.com`, although the guard accepts it. */
  lemma CaseQuirkExample()
    ensures ContainsIgnoreCase(["Example.com"], "example.com")
    ensures RemoveIfPresent(["Example.com"], "example.com") == ["Example.com"]
  {
    var list, name := ["Example.com"], "example.com";
    assert EqualsIgnoreCase(list[0], name);
    assert list[0][0] != name[0];
    assert name !in list;
  }

  /** Removing an element keeps a list free of case-insensitive duplicates. */
  lemma RemoveFirstKeepsDistinct(list: seq<string>, name: string)
    requires DistinctIgnoreCase(list)
    ensures DistinctIgnoreCase(RemoveFirst(list, name))
  {
    if name in list {
      DropKeepsDistinct(list, FirstIndex(list, name));
    }
  }

  lemma DropKeepsDistinct(list: seq<string>, k: int)
    requires DistinctIgnoreCase(list) && 0 <= k < |list|
    ensures DistinctIgnoreCase(list[..k] + list[k + 1..])
  {
    var r := list[..k] + list[k + 1..];
    forall i, j | 0 <= i < j < |r|
      ensures !EqualsIgnoreCase(r[i], r[j])
    {
      var i', j' := if i < k then i else i + 1, if j < k then j else j + 1;
      assert r[i] == list[i'] && r[j] == list[j'];
      assert !EqualsIgnoreCase(list[i'], list[j']);
    }
  }

  /**
   * In a list without case-insensitive duplicates, unblocking the exact entry
   * leaves nothing that matches it, in any case.
   */
  lemma RemoveExactFromDistinct(list: seq<string>, name: string)
    requires DistinctIgnoreCase(list) && name in list
    ensures !ContainsIgnoreCase(RemoveIfPresent(list, name), name)
  {
    var k := FirstIndex(list, name);
    RemoveIfPresentExact(list, name);
    var r := list[..k] + list[k + 1..];
    DropLeavesNoMatch(list, k);
    ContainsIgnoreCaseIff(r, name);
  }

  /** Dropping position `k` of a list without case-insensitive duplicates leaves nothing equal to `list[k]` ignoring case. */
  lemma DropLeavesNoMatch(list: seq<string>, k: int)
    requires DistinctIgnoreCase(list) && 0 <= k < |list|
    ensures var r := list[..k] + list[k + 1..];
      forall i :: 0 <= i < |r| ==> !EqualsIgnoreCase(r[i], list[k])
  {
    var r := list[..k] + list[k + 1..];
    forall i | 0 <= i < |r|
      ensures !EqualsIgnoreCase(r[i], list[k])
    {
      var i' := if i < k then i else i + 1;
      assert r[i] == list[i'];
      if i' < k {
        assert !EqualsIgnoreCase(list[i'], list[k]);
      } else {
        assert !EqualsIgnoreCase(list[k], list[i']);
      }
    }
  }

  // ---------------------------------------------------------------------------
  // Process sweep

  /** Indices, in order, of the processes whose name is on the application list ignoring case. */
  function MatchingProcesses(processes: seq<string>, blockedApps: seq<string>): (r: seq<nat>)
    ensures forall k :: 0 <= k < |r| ==> r[k] < |processes| && ContainsIgnoreCase(blockedApps, processes[r[k]])
    ensures forall k, l :: 0 <= k < l < |r| ==> r[k] < r[l]
  {
    if processes == [] then []
    else
      var n := |processes| - 1;
      MatchingProcesses(processes[..n], blockedApps) + (if ContainsIgnoreCase(blockedApps, processes[n]) then [n] else [])
  }

  /** Every matching process is among them. */
  lemma {:induction false} MatchingProcessesComplete(processes: seq<string>, blockedApps: seq<string>, i: int)
    requires 0 <= i < |processes| && ContainsIgnoreCase(blockedApps, processes[i])
    ensures i in MatchingProcesses(processes, blockedApps)
  {
    var n := |processes| - 1;
    if i < n {
      MatchingProcessesComplete(processes[..n], blockedApps, i);
    }
  }

  /** The processes a sweep tries to kill: none outside the blocking period, every match inside it. */
  function KillTargets(inPeriod: bool, processes: seq<string>, blockedApps: seq<string>): (r: seq<nat>) {
    if inPeriod then MatchingProcesses(processes, blockedApps) else []
  }

  /** A process is a kill target exactly when the period is active and its name matches ignoring case. */
  lemma KillTargetsIff(inPeriod: bool, processes: seq<string>, blockedApps: seq<string>, i: int)
    requires 0 <= i < |processes|
    ensures i in KillTargets(inPeriod, processes, blockedApps) <==> inPeriod && ContainsIgnoreCase(blockedApps, processes[i])
  {
    if inPeriod && ContainsIgnoreCase(blockedApps, processes[i]) {
      MatchingProcessesComplete(processes, blockedApps, i);
    }
  }

  // ---------------------------------------------------------------------------
  // The window

  class MainWindow {
    var blockedApps: seq<string>
    var blockedWebsites: seq<string>
    /** The hex SHA-256 of the password set in this session; the empty string when none is set. */
    var hashedPassword: string
    var unblockAttempts: map<int, int>
    const maxAttemptsPerHour: int
    /** The lines of the system hosts file. */
    var hosts: seq<string>
    /** The two list files; `None` when the file does not exist. */
    var websitesFile: Option<seq<string>>
    var appsFile: Option<seq<string>>
    /** `IsVisible` of the window and the visibility of the tray icon. */
    var isVisible: bool
    var trayVisible: bool
    /** SHA-256 of the UTF-8 encoding of a string. */
    const sha256: string -> HexFormat.Digest

    /**
     * The constructor: both lists are loaded from their files where these exist,
     * the hosts file is rewritten when the website file exists, the ledger starts
     * empty, and inside the blocking period the window is hidden behind the tray icon.
     */
    constructor (websitesFile: Option<seq<string>>, appsFile: Option<seq<string>>, hosts: seq<string>,
                 now: TimeOfDay, sha256: string -> HexFormat.Digest)
      ensures blockedWebsites == (if websitesFile.Some? then websitesFile.value else [])
      ensures blockedApps == (if appsFile.Some? then appsFile.value else [])
      ensures this.hosts == (if websitesFile.Some? then Hosts.RewriteHosts(hosts, blockedWebsites) else hosts)
      ensures this.websitesFile == websitesFile && this.appsFile == appsFile
      ensures unblockAttempts == map[] && maxAttemptsPerHour == RateLimit.MaxAttemptsPerHour
      ensures hashedPassword == ""
      ensures !isVisible && trayVisible == IsWithinBlockingPeriod(now)
      ensures this.sha256 == sha256
    {
      var websites := if websitesFile.Some? then websitesFile.value else [];
      var newHosts := hosts;
      if websitesFile.Some? {
        newHosts := Hosts.UpdateHostsLines(hosts, websites);
      }
      blockedWebsites := websites;
      blockedApps := if appsFile.Some? then appsFile.value else [];
      this.hosts := newHosts;
      this.websitesFile, this.appsFile := websitesFile, appsFile;
      unblockAttempts := map[];
      maxAttemptsPerHour := RateLimit.MaxAttemptsPerHour;
      hashedPassword := "";
      isVisible := false;
      trayVisible := IsWithinBlockingPeriod(now);
      this.sha256 := sha256;
    }

    /** The managed lines of the hosts file are exactly the image of the website list. */
    predicate HostsSynced()
      reads this`hosts, this`blockedWebsites
    {
      Hosts.Select(hosts, true) == Hosts.ManagedLines(blockedWebsites)
    }

    /** `UpdateHostsFile` between the read and the write of the hosts file. */
    method UpdateHostsFile()
      modifies this`hosts
      ensures hosts == Hosts.RewriteHosts(old(hosts), blockedWebsites)
      ensures HostsSynced()
    {
      hosts := Hosts.UpdateHostsLines(hosts, blockedWebsites);
      Hosts.RewritePartition(old(hosts), blockedWebsites);
    }

    method SaveBlockedWebsitesToFile()
      modifies this`websitesFile
      ensures websitesFile == Some(blockedWebsites)
    {
      websitesFile := Some(blockedWebsites);
    }

    method SaveBlockedAppsToFile()
      modifies this`appsFile
      ensures appsFile == Some(blockedApps)
    {
      appsFile := Some(blockedApps);
    }

    /** `BlockWebsite`: nothing happens when the name is present ignoring case. */
    method BlockWebsite(website: string)
      modifies this`blockedWebsites, this`hosts, this`websitesFile
      ensures blockedWebsites == AddIfAbsent(old(blockedWebsites), website)
      ensures ContainsIgnoreCase(old(blockedWebsites), website) ==>
        hosts == old(hosts) && websitesFile == old(websitesFile)
      ensures !ContainsIgnoreCase(old(blockedWebsites), website) ==>
        && hosts == Hosts.RewriteHosts(old(hosts), blockedWebsites)
        && websitesFile == Some(blockedWebsites)
    {
      if !ContainsIgnoreCase(blockedWebsites, website) {
        blockedWebsites := blockedWebsites + [website];
        UpdateHostsFile();
        SaveBlockedWebsitesToFile();
      }
    }

    /** `UnblockWebsite`: a case-insensitive guard, then `List.Remove`, which is ordinal. */
    method UnblockWebsite(website: string)
      modifies this`blockedWebsites, this`hosts, this`websitesFile
      ensures blockedWebsites == RemoveIfPresent(old(blockedWebsites), website)
      ensures !ContainsIgnoreCase(old(blockedWebsites), website) ==>
        hosts == old(hosts) && websitesFile == old(websitesFile)
      ensures ContainsIgnoreCase(old(blockedWebsites), website) ==>
        && hosts == Hosts.RewriteHosts(old(hosts), blockedWebsites)
        && websitesFile == Some(blockedWebsites)
    {
      if ContainsIgnoreCase(blockedWebsites, website) {
        blockedWebsites := RemoveFirst(blockedWebsites, website);
        UpdateHostsFile();
        SaveBlockedWebsitesToFile();
      }
    }

    /** `CanAttemptUnblock` for the hour bucket `currentHour` read from the clock. */
    method CanAttemptUnblock(currentHour: int) returns (allowed: bool)
      modifies this`unblockAttempts
      ensures RateLimit.TryConsume(old(unblockAttempts), currentHour, maxAttemptsPerHour)
        == RateLimit.Decision(allowed, unblockAttempts)
    {
      var keysToRemove := set k | k in unblockAttempts && k < currentHour;
      ghost var removed: set<int> := {};
      while keysToRemove != {}
        invariant keysToRemove !! removed
        invariant keysToRemove + removed == set k | k in old(unblockAttempts) && k < currentHour
        invariant unblockAttempts.Keys == old(unblockAttempts).Keys - removed
        invariant forall k :: k in unblockAttempts ==> unblockAttempts[k] == old(unblockAttempts)[k]
        decreases keysToRemove
      {
        var key :| key in keysToRemove;
        unblockAttempts := unblockAttempts - {key};
        keysToRemove := keysToRemove - {key};
        removed := removed + {key};
      }
      assert unblockAttempts == map k | k in old(unblockAttempts) && k >= currentHour :: old(unblockAttempts)[k];
      if currentHour !in unblockAttempts {
        unblockAttempts := unblockAttempts[currentHour := 0];
      }
      if unblockAttempts[currentHour] >= maxAttemptsPerHour {
        return false;
      }
      unblockAttempts := unblockAttempts[currentHour := unblockAttempts[currentHour] + 1];
      allowed := true;
    }

    /** Whether a typed password passes the prompt of `AuthenticateUser`. */
    predicate Authenticates(input: string)
      reads this`hashedPassword
    {
      hashedPassword == "" || HexFormat.Hex(sha256(input)) == hashedPassword
    }

    /** `ComputeSha256Hash`: the digest as two lower-case hex digits per byte. */
    method ComputeSha256Hash(rawData: string) returns (hash: string)
      ensures hash == HexFormat.Hex(sha256(rawData))
      ensures |hash| == 2 * HexFormat.DigestLength
      ensures forall i :: 0 <= i < |hash| ==> HexFormat.IsHexDigit(hash[i])
    {
      var bytes := sha256(rawData);
      hash := HexFormat.ToHexString(bytes);
    }

    /**
     * `AuthenticateUser` with `input` the text typed into the prompt: without a
     * password set it succeeds without asking; otherwise the digests are compared.
     */
    method AuthenticateUser(input: string) returns (ok: bool)
      ensures ok == Authenticates(input)
    {
      if hashedPassword != "" {
        var h := ComputeSha256Hash(input);
        ok := h == hashedPassword;
      } else {
        ok := true;
      }
    }

    /** `SetPasswordButton_Click`: a non-empty password replaces the stored hash. */
    method SetPasswordButtonClick(password: string)
      modifies this`hashedPassword
      ensures password == "" ==> hashedPassword == old(hashedPassword)
      ensures password != "" ==> hashedPassword == HexFormat.Hex(sha256(password))
      ensures password != "" ==> hashedPassword != "" && Authenticates(password)
      ensures password != "" ==> forall x :: Authenticates(x) <==> sha256(x) == sha256(password)
    {
      if password != "" {
        hashedPassword := ComputeSha256Hash(password);
        forall x | Authenticates(x)
          ensures sha256(x) == sha256(password)
        {
          HexFormat.HexInjective(sha256(x), sha256(password));
        }
      }
    }

    /** `BlockWebsiteButton_Click`. */
    method BlockWebsiteButtonClick(isAdmin: bool, now: TimeOfDay, password: string, websiteText: string)
      returns (outcome: Outcome)
      modifies this`blockedWebsites, this`hosts, this`websitesFile
      ensures outcome == (if !isAdmin then RestartedAsAdmin
                          else if IsWithinBlockingPeriod(now) && !old(Authenticates(password)) then AuthenticationFailed
                          else if Trim(websiteText) == "" then EmptyInput
                          else Blocked(Trim(websiteText)))
      ensures blockedWebsites == (if outcome.Blocked? then AddIfAbsent(old(blockedWebsites), outcome.name) else old(blockedWebsites))
      ensures if outcome.Blocked? && !ContainsIgnoreCase(old(blockedWebsites), outcome.name)
        then hosts == Hosts.RewriteHosts(old(hosts), blockedWebsites) && websitesFile == Some(blockedWebsites)
        else hosts == old(hosts) && websitesFile == old(websitesFile)
    {
      if !isAdmin {
        return RestartedAsAdmin;
      }
      if IsWithinBlockingPeriod(now) {
        var ok := AuthenticateUser(password);
        if !ok {
          return AuthenticationFailed;
        }
      }
      var website := Trim(websiteText);
      if website == "" {
        return EmptyInput;
      }
      BlockWebsite(website);
      outcome := Blocked(website);
    }

    /**
     * `UnblockWebsiteButton_Click`. The checks run in order: administrator
     * rights, the password inside the blocking period, the attempt limiter,
     * the challenge, and only then the text box. An attempt is used up as soon
     * as the first two pass, whatever follows.
     */
    method UnblockWebsiteButtonClick(isAdmin: bool, now: TimeOfDay, password: string, day: int,
                                     challengePassed: bool, websiteText: string)
      returns (outcome: Outcome)
      modifies this`blockedWebsites, this`hosts, this`websitesFile, this`unblockAttempts
      ensures var authOk := !IsWithinBlockingPeriod(now) || old(Authenticates(password));
        var gate := RateLimit.TryConsume(old(unblockAttempts), RateLimit.HourBucket(day, now), maxAttemptsPerHour);
        && outcome == (if !isAdmin then RestartedAsAdmin
                       else if !authOk then AuthenticationFailed
                       else if !gate.allowed then RateLimited
                       else if !challengePassed then ChallengeFailed
                       else if Trim(websiteText) == "" then EmptyInput
                       else Unblocked(Trim(websiteText)))
        && unblockAttempts == (if isAdmin && authOk then gate.ledger else old(unblockAttempts))
      ensures blockedWebsites == (if outcome.Unblocked? then RemoveIfPresent(old(blockedWebsites), outcome.name) else old(blockedWebsites))
      ensures outcome.Unblocked? && ContainsIgnoreCase(old(blockedWebsites), outcome.name) ==>
        hosts == Hosts.RewriteHosts(old(hosts), blockedWebsites) && websitesFile == Some(blockedWebsites)
      ensures !(outcome.Unblocked? && ContainsIgnoreCase(old(blockedWebsites), outcome.name)) ==>
        hosts == old(hosts) && websitesFile == old(websitesFile)
    {
      if !isAdmin {
        return RestartedAsAdmin;
      }
      if IsWithinBlockingPeriod(now) {
        var ok := AuthenticateUser(password);
        if !ok {
          return AuthenticationFailed;
        }
      }
      var allowed := CanAttemptUnblock(RateLimit.HourBucket(day, now));
      if !allowed {
        return RateLimited;
      }
      if !challengePassed {
        return ChallengeFailed;
      }
      var website := Trim(websiteText);
      if website == "" {
        return EmptyInput;
      }
      UnblockWebsite(website);
      outcome := Unblocked(website);
    }

    /**
     * `UnblockSelectedWebsiteButton_Click`: the same checks, except that the
     * selection is checked after the limiter and before the challenge.
     */
    method UnblockSelectedWebsiteButtonClick(isAdmin: bool, now: TimeOfDay, password: string, day: int,
                                             selected: Option<string>, challengePassed: bool)
      returns (outcome: Outcome)
      modifies this`blockedWebsites, this`hosts, this`websitesFile, this`unblockAttempts
      ensures var authOk := !IsWithinBlockingPeriod(now) || old(Authenticates(password));
        var gate := RateLimit.TryConsume(old(unblockAttempts), RateLimit.HourBucket(day, now), maxAttemptsPerHour);
        && outcome == (if !isAdmin then RestartedAsAdmin
                       else if !authOk then AuthenticationFailed
                       else if !gate.allowed then RateLimited
                       else if selected.None? then NoSelection
                       else if !challengePassed then ChallengeFailed
                       else Unblocked(selected.value))
        && unblockAttempts == (if isAdmin && authOk then gate.ledger else old(unblockAttempts))
      ensures blockedWebsites == (if outcome.Unblocked? then RemoveIfPresent(old(blockedWebsites), outcome.name) else old(blockedWebsites))
      ensures outcome.Unblocked? && ContainsIgnoreCase(old(blockedWebsites), outcome.name) ==>
        hosts == Hosts.RewriteHosts(old(hosts), blockedWebsites) && websitesFile == Some(blockedWebsites)
      ensures !(outcome.Unblocked? && ContainsIgnoreCase(old(blockedWebsites), outcome.name)) ==>
        hosts == old(hosts) && websitesFile == old(websitesFile)
    {
      if !isAdmin {
        return RestartedAsAdmin;
      }
      if IsWithinBlockingPeriod(now) {
        var ok := AuthenticateUser(password);
        if !ok {
          return AuthenticationFailed;
        }
      }
      var allowed := CanAttemptUnblock(RateLimit.HourBucket(day, now));
      if !allowed {
        return RateLimited;
      }
      if selected.None? {
        return NoSelection;
      }
      if !challengePassed {
        return ChallengeFailed;
      }
      var website := selected.value;
      UnblockWebsite(website);
      outcome := Unblocked(website);
    }

    /** `BlockSelectedAppButton_Click`: no administrator check; duplicates ignoring case are refused. */
    method BlockSelectedAppButtonClick(now: TimeOfDay, password: string, selected: Option<string>)
      returns (outcome: Outcome)
      modifies this`blockedApps, this`appsFile
      ensures var authOk := !IsWithinBlockingPeriod(now) || old(Authenticates(password));
        && outcome == (if !authOk then AuthenticationFailed
                       else if selected.None? then NoSelection
                       else if ContainsIgnoreCase(old(blockedApps), selected.value) then AlreadyBlocked
                       else Blocked(selected.value))
        && blockedApps == (if outcome.Blocked? then old(blockedApps) + [outcome.name] else old(blockedApps))
        && appsFile == (if outcome.Blocked? then Some(blockedApps) else old(appsFile))
    {
      if IsWithinBlockingPeriod(now) {
        var ok := AuthenticateUser(password);
        if !ok {
          return AuthenticationFailed;
        }
      }
      if selected.None? {
        return NoSelection;
      }
      var appName := selected.value;
      if ContainsIgnoreCase(blockedApps, appName) {
        return AlreadyBlocked;
      }
      blockedApps := blockedApps + [appName];
      SaveBlockedAppsToFile();
      outcome := Blocked(appName);
    }

    /** `BlockAppButton_Click`: the typed name is appended with no duplicate check. */
    method BlockAppButtonClick(now: TimeOfDay, password: string, appText: string)
      returns (outcome: Outcome)
      modifies this`blockedApps, this`appsFile
      ensures var appName := Trim(appText);
        var authOk := !IsWithinBlockingPeriod(now) || old(Authenticates(password));
        && outcome == (if !authOk then AuthenticationFailed
                       else if appName == "" then EmptyInput
                       else Blocked(appName))
        && blockedApps == (if outcome.Blocked? then old(blockedApps) + [appName] else old(blockedApps))
        && appsFile == (if outcome.Blocked? then Some(blockedApps) else old(appsFile))
    {
      if IsWithinBlockingPeriod(now) {
        var ok := AuthenticateUser(password);
        if !ok {
          return AuthenticationFailed;
        }
      }
      var appName := Trim(appText);
      if appName == "" {
        return EmptyInput;
      }
      blockedApps := blockedApps + [appName];
      SaveBlockedAppsToFile();
      outcome := Blocked(appName);
    }

    /**
     * `UnblockSelectedAppButton_Click`: no administrator check; the password,
     * the limiter, the selection, the challenge, then an ordinal `Remove` with
     * no guard, after which the list is saved.
     */
    method UnblockSelectedAppButtonClick(now: TimeOfDay, password: string, day: int,
                                         selected: Option<string>, challengePassed: bool)
      returns (outcome: Outcome)
      modifies this`blockedApps, this`appsFile, this`unblockAttempts
      ensures var authOk := !IsWithinBlockingPeriod(now) || old(Authenticates(password));
        var gate := RateLimit.TryConsume(old(unblockAttempts), RateLimit.HourBucket(day, now), maxAttemptsPerHour);
        && outcome == (if !authOk then AuthenticationFailed
                       else if !gate.allowed then RateLimited
                       else if selected.None? then NoSelection
                       else if !challengePassed then ChallengeFailed
                       else Unblocked(selected.value))
        && unblockAttempts == (if authOk then gate.ledger else old(unblockAttempts))
        && blockedApps == (if outcome.Unblocked? then RemoveFirst(old(blockedApps), outcome.name) else old(blockedApps))
        && appsFile == (if outcome.Unblocked? then Some(blockedApps) else old(appsFile))
    {
      if IsWithinBlockingPeriod(now) {
        var ok := AuthenticateUser(password);
        if !ok {
          return AuthenticationFailed;
        }
      }
      var allowed := CanAttemptUnblock(RateLimit.HourBucket(day, now));
      if !allowed {
        return RateLimited;
      }
      if selected.None? {
        return NoSelection;
      }
      if !challengePassed {
        return ChallengeFailed;
      }
      var appName := selected.value;
      blockedApps := RemoveFirst(blockedApps, appName);
      SaveBlockedAppsToFile();
      outcome := Unblocked(appName);
    }

    /**
     * `ProcessMonitorTimer_Elapsed` over the processes `processes` (by name).
     * Returns the indices of the processes a kill was attempted on, and those
     * the kill succeeded for; a failed kill is swallowed and the loop goes on.
     */
    method ProcessMonitorTimerElapsed(now: TimeOfDay, processes: seq<string>)
      returns (attempted: seq<nat>, killed: set<nat>)
      ensures attempted == KillTargets(IsWithinBlockingPeriod(now), processes, blockedApps)
      ensures forall i :: i in killed ==> i in attempted
    {
      attempted, killed := [], {};
      if !IsWithinBlockingPeriod(now) {
        return;
      }
      for i := 0 to |processes|
        invariant attempted == MatchingProcesses(processes[..i], blockedApps)
        invariant forall j :: j in killed ==> j in attempted
      {
        var processName := processes[i];
        if ContainsIgnoreCase(blockedApps, processName) {
          attempted := attempted + [i];
          var killSucceeded: bool := *;
          if killSucceeded {
            killed := killed + {i};
          }
        }
        assert processes[..i + 1][..i] == processes[..i];
      }
      assert processes[..|processes|] == processes;
    }

    /**
     * `UIUpdateTimer_Tick`: inside the period a visible window is hidden behind
     * the tray icon; outside it a hidden window is shown and the icon removed.
     */
    method UiUpdateTimerTick(now: TimeOfDay)
      modifies this`isVisible, this`trayVisible
      ensures IsWithinBlockingPeriod(now) ==> !isVisible && trayVisible == (old(trayVisible) || old(isVisible))
      ensures !IsWithinBlockingPeriod(now) ==> isVisible && trayVisible == (old(trayVisible) && old(isVisible))
    {
      if IsWithinBlockingPeriod(now) {
        if isVisible {
          isVisible := false;
          trayVisible := true;
        }
      } else {
        if !isVisible {
          isVisible := true;
          trayVisible := false;
        }
      }
    }
  }
}
