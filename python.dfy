/**
 * Python packages on the server: the installed-package listing and the
 * reconciliation of a local requirements file against it
 * (`upload_python_requirements`), which decides per requirement whether to
 * install, update (uninstall, then install) or leave it alone.
 */
module Python {
  import opened Wrappers
  import opened Text
  import opened Resources
  import opened Requirements

  /** A package as the pip endpoints exchange it. */
  datatype PipPackage = PipPackage(
    name: string,
    version: Option<string>,
    pythonVersion: string,
    id: Option<string>,
    requirements: Option<seq<string>>,
    license: Option<string>,
    authorEmail: Option<string>,
    author: Option<string>,
    homePage: Option<string>,
    summary: Option<string>,
    disabled: Option<bool>)

  /** Every package with its name lower-cased. */
  function LowercaseNames(packages: seq<PipPackage>): seq<PipPackage> {
    seq(|packages|, i requires 0 <= i < |packages| => packages[i].(name := Lower(packages[i].name)))
  }

  /**
   * Lower-casing keeps every package and all of its other fields, leaves no
   * upper-case letter in any name, and is idempotent.
   */
  lemma LowercaseNamesKeepsPackages(packages: seq<PipPackage>)
    ensures |LowercaseNames(packages)| == |packages|
    ensures forall i | 0 <= i < |packages| ::
      IsLower(LowercaseNames(packages)[i].name) &&
      LowercaseNames(packages)[i].(name := packages[i].name) == packages[i]
    ensures LowercaseNames(LowercaseNames(packages)) == LowercaseNames(packages)
  {
    forall i | 0 <= i < |packages| ensures IsLower(LowercaseNames(packages)[i].name) {
      LowerIsLower(packages[i].name);
    }
    forall i | 0 <= i < |packages| ensures LowercaseNames(LowercaseNames(packages))[i] == LowercaseNames(packages)[i] {
      LowerIsLower(packages[i].name);
    }
  }

  /** `get_installed_pip_packages`: the fetched list, names lower-cased. */
  function GetInstalledPipPackages(fetched: Result<seq<PipPackage>, ClientError>): (r: Result<seq<PipPackage>, ClientError>)
    ensures fetched.Failure? <==> r.Failure?
    ensures r.Failure? ==> r.error == fetched.error
    ensures r.Success? ==> r.value == LowercaseNames(fetched.value)
  {
    if fetched.Failure? then Failure(fetched.error) else Success(LowercaseNames(fetched.value))
  }

  /** What the classification loop decides for one requirement. */
  datatype Action = UpdatePackage | InstallPackage | AlreadyInstalled

  /** Some installed package has this name. */
  predicate IsInstalled(installed: seq<PipPackage>, name: string) {
    exists p | p in installed :: p.name == name
  }

  /**
   * The classification of a requirement `name==version`: update when an
   * installed package of that name has any other version (a missing version
   * included); otherwise install when none has exactly this version;
   * otherwise nothing to do.
   */
  function Classify(installed: seq<PipPackage>, name: string, version: string): (a: Action)
    ensures a == InstallPackage <==> !IsInstalled(installed, name)
    ensures a == AlreadyInstalled <==>
      IsInstalled(installed, name) && forall p | p in installed && p.name == name :: p.version == Some(version)
    ensures a == UpdatePackage <==> exists p | p in installed :: p.name == name && p.version != Some(version)
  {
    if exists p | p in installed :: p.name == name && p.version != Some(version) then UpdatePackage
    else if !exists p | p in installed :: p.name == name && p.version == Some(version) then InstallPackage
    else AlreadyInstalled
  }

  /** `order` lists the keys of `requirements`, each exactly once: the map's iteration order. */
  predicate IsEnumeration(order: seq<string>, requirements: map<string, string>) {
    && (forall i, j | 0 <= i < j < |order| :: order[i] != order[j])
    && (forall k | k in order :: k in requirements)
    && (forall k | k in requirements :: k in order)
  }

  /** The requirements the loop pushes for `action`, in iteration order. */
  function Selected(order: seq<string>, requirements: map<string, string>, installed: seq<PipPackage>, action: Action)
    : seq<(string, string)>
    requires forall k | k in order :: k in requirements
  {
    if order == [] then []
    else
      var k := order[|order| - 1];
      Selected(order[..|order| - 1], requirements, installed, action) +
      if Classify(installed, k, requirements[k]) == action then [(k, requirements[k])] else []
  }

  /** A pair is selected for `action` exactly when its name is listed, it carries the required version, and it is classified so. */
  lemma {:induction false} SelectedMembers(order: seq<string>, requirements: map<string, string>, installed: seq<PipPackage>,
                                           action: Action, name: string, version: string)
    requires forall k | k in order :: k in requirements
    ensures (name, version) in Selected(order, requirements, installed, action) <==>
      name in order && version == requirements[name] && Classify(installed, name, version) == action
  {
    if order != [] {
      var prefix := order[..|order| - 1];
      assert forall k | k in prefix :: k in order;
      SelectedMembers(prefix, requirements, installed, action, name, version);
      assert order == prefix + [order[|order| - 1]];
    }
  }

  /**
   * Every requirement lands in exactly one place: the install list, the
   * update list, or neither because it is already installed.
   */
  lemma ClassificationPartitions(order: seq<string>, requirements: map<string, string>, installed: seq<PipPackage>,
                                 name: string)
    requires IsEnumeration(order, requirements)
    requires name in requirements
    ensures var entry := (name, requirements[name]);
      var toInstall := Selected(order, requirements, installed, InstallPackage);
      var toUpdate := Selected(order, requirements, installed, UpdatePackage);
      && (entry in toInstall <==> Classify(installed, name, requirements[name]) == InstallPackage)
      && (entry in toUpdate <==> Classify(installed, name, requirements[name]) == UpdatePackage)
      && !(entry in toInstall && entry in toUpdate)
      && (entry !in toInstall && entry !in toUpdate <==> Classify(installed, name, requirements[name]) == AlreadyInstalled)
  {
    SelectedMembers(order, requirements, installed, InstallPackage, name, requirements[name]);
    SelectedMembers(order, requirements, installed, UpdatePackage, name, requirements[name]);
  }

  /** The classification loop: each requirement, in iteration order, goes to the update list, the install list, or nowhere. */
  method SplitRequirements(order: seq<string>, requirements: map<string, string>, installed: seq<PipPackage>)
    returns (toInstall: seq<(string, string)>, toUpdate: seq<(string, string)>)
    requires forall k | k in order :: k in requirements
    ensures toInstall == Selected(order, requirements, installed, InstallPackage)
    ensures toUpdate == Selected(order, requirements, installed, UpdatePackage)
  {
    toInstall, toUpdate := [], [];
    var i := 0;
    while i < |order|
      invariant 0 <= i <= |order|
      invariant toInstall == Selected(order[..i], requirements, installed, InstallPackage)
      invariant toUpdate == Selected(order[..i], requirements, installed, UpdatePackage)
    {
      assert order[..i + 1][..i] == order[..i];
      var name := order[i];
      var version := requirements[name];
      if exists p | p in installed :: p.name == name && p.version != Some(version) {
        toUpdate := toUpdate + [(name, version)];
      } else if !exists p | p in installed :: p.name == name && p.version == Some(version) {
        toInstall := toInstall + [(name, version)];
      }
      i := i + 1;
    }
    assert order[..|order|] == order;
  }

  /** `install_pip_package`'s request body: the name and version given, Python 3, nothing else set. */
  function InstallBody(name: string, version: Option<string>): (body: PipPackage)
    ensures body.name == name && body.version == version && body.pythonVersion == "Python3"
    ensures body.id.None? && body.requirements.None? && body.license.None? && body.authorEmail.None?
    ensures body.author.None? && body.homePage.None? && body.summary.None? && body.disabled.None?
  {
    PipPackage(name, version, "Python3", None, None, None, None, None, None, None, None)
  }

  /** A request sent to the server's pip endpoints. */
  datatype PipRequest = Uninstall(name: string) | Install(body: PipPackage)

  function Uninstalls(packages: seq<(string, string)>): (r: seq<PipRequest>)
    ensures |r| == |packages|
  {
    if packages == [] then []
    else Uninstalls(packages[..|packages| - 1]) + [Uninstall(packages[|packages| - 1].0)]
  }

  function Installs(packages: seq<(string, string)>): (r: seq<PipRequest>)
    ensures |r| == |packages|
  {
    if packages == [] then []
    else
      var (name, version) := packages[|packages| - 1];
      Installs(packages[..|packages| - 1]) + [Install(InstallBody(name, Some(version)))]
  }

  /**
   * The requests in the order the two phases issue them: every update
   * package is uninstalled, then the install list followed by the update
   * list is installed.
   */
  function UploadRequests(toInstall: seq<(string, string)>, toUpdate: seq<(string, string)>): seq<PipRequest> {
    Uninstalls(toUpdate) + Installs(toInstall + toUpdate)
  }

  lemma {:induction false} UninstallsAreUninstalls(packages: seq<(string, string)>)
    ensures forall i | 0 <= i < |packages| :: Uninstalls(packages)[i] == Uninstall(packages[i].0)
  {
    if packages != [] {
      UninstallsAreUninstalls(packages[..|packages| - 1]);
    }
  }

  lemma {:induction false} InstallsAreInstalls(packages: seq<(string, string)>)
    ensures forall i | 0 <= i < |packages| :: Installs(packages)[i] == Install(InstallBody(packages[i].0, Some(packages[i].1)))
  {
    if packages != [] {
      InstallsAreInstalls(packages[..|packages| - 1]);
    }
  }

  /** Phase order: every uninstall comes before any install, and an update package costs two requests. */
  lemma UploadRequestsPhases(toInstall: seq<(string, string)>, toUpdate: seq<(string, string)>)
    ensures var requests := UploadRequests(toInstall, toUpdate);
      && |requests| == |toInstall| + 2 * |toUpdate|
      && (forall i | 0 <= i < |toUpdate| :: requests[i].Uninstall?)
      && (forall i | |toUpdate| <= i < |requests| :: requests[i].Install?)
  {
    UninstallsAreUninstalls(toUpdate);
    InstallsAreInstalls(toInstall + toUpdate);
  }

  /** Each update package is uninstalled in the first phase and installed again, at the required version, at the end. */
  lemma UpdatesReinstalled(toInstall: seq<(string, string)>, toUpdate: seq<(string, string)>, k: nat)
    requires k < |toUpdate|
    ensures var requests := UploadRequests(toInstall, toUpdate);
      && requests[k] == Uninstall(toUpdate[k].0)
      && requests[|toUpdate| + |toInstall| + k] ==
         Install(InstallBody(toUpdate[k].0, Some(toUpdate[k].1)))
  {
    UninstallsAreUninstalls(toUpdate);
    InstallsAreInstalls(toInstall + toUpdate);
    assert (toInstall + toUpdate)[|toInstall| + k] == toUpdate[k];
  }

  /** Each install package is installed once, at the required version, right after the uninstall phase. */
  lemma InstallsFollowUninstalls(toInstall: seq<(string, string)>, toUpdate: seq<(string, string)>, k: nat)
    requires k < |toInstall|
    ensures UploadRequests(toInstall, toUpdate)[|toUpdate| + k] ==
            Install(InstallBody(toInstall[k].0, Some(toInstall[k].1)))
  {
    UninstallsAreUninstalls(toUpdate);
    InstallsAreInstalls(toInstall + toUpdate);
    assert (toInstall + toUpdate)[k] == toInstall[k];
  }

  /** How an upload ends: done, aborted on a bad requirements file (a panic in the source), or a failed fetch. */
  datatype UploadOutcome = Uploaded | Aborted(reason: UploadRequirementsError) | FetchFailed(cause: ClientError)

  /** The uninstall phase. */
  method UninstallPhase(toUpdate: seq<(string, string)>) returns (requests: seq<PipRequest>)
    ensures requests == Uninstalls(toUpdate)
  {
    requests := [];
    var i := 0;
    while i < |toUpdate|
      invariant 0 <= i <= |toUpdate|
      invariant requests == Uninstalls(toUpdate[..i])
    {
      assert toUpdate[..i + 1][..i] == toUpdate[..i];
      requests := requests + [Uninstall(toUpdate[i].0)];
      i := i + 1;
    }
    assert toUpdate[..|toUpdate|] == toUpdate;
  }

  /** The install phase. */
  method InstallPhase(packages: seq<(string, string)>) returns (requests: seq<PipRequest>)
    ensures requests == Installs(packages)
  {
    requests := [];
    var i := 0;
    while i < |packages|
      invariant 0 <= i <= |packages|
      invariant requests == Installs(packages[..i])
    {
      assert packages[..i + 1][..i] == packages[..i];
      var (name, version) := packages[i];
      requests := requests + [Install(InstallBody(name, Some(version)))];
      i := i + 1;
    }
    assert packages[..|packages|] == packages;
  }

  /**
   * `upload_python_requirements`: the local file is parsed (a bad file
   * aborts before any request), the installed packages are fetched, the
   * requirements are classified in the map's iteration `order`, and the
   * uninstall phase runs before the install phase.
   */
  method UploadPythonRequirements(lines: seq<string>, installedFetch: Result<seq<PipPackage>, ClientError>, order: seq<string>)
    returns (outcome: UploadOutcome, requests: seq<PipRequest>)
    requires ParseLines(lines).Success? ==> IsEnumeration(order, ParseLines(lines).value)
    ensures ParseLines(lines).Failure? ==> outcome == Aborted(ParseLines(lines).error) && requests == []
    ensures ParseLines(lines).Success? && installedFetch.Failure? ==>
      outcome == FetchFailed(installedFetch.error) && requests == []
    ensures ParseLines(lines).Success? && installedFetch.Success? ==>
      var requirements := ParseLines(lines).value;
      var installed := LowercaseNames(installedFetch.value);
      outcome == Uploaded &&
      requests == UploadRequests(Selected(order, requirements, installed, InstallPackage),
                                 Selected(order, requirements, installed, UpdatePackage))
  {
    requests := [];
    var localRequirements := FilePathToHashmap(lines);
    if localRequirements.Failure? {
      return Aborted(localRequirements.error), requests;
    }
    var alreadyInstalled := GetInstalledPipPackages(installedFetch);
    if alreadyInstalled.Failure? {
      return FetchFailed(alreadyInstalled.error), requests;
    }
    var toInstall, toUpdate := SplitRequirements(order, localRequirements.value, alreadyInstalled.value);
    var uninstalls := UninstallPhase(toUpdate);
    var installs := InstallPhase(toInstall + toUpdate);
    requests := uninstalls + installs;
    outcome := Uploaded;
  }
}
