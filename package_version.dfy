/** `parse_package_version` of the command-line tool: the version part of "package==1.0.0". */
module PackageVersion {
  import opened Wrappers
  import opened Text

  /**
   * The parser as written: trim, give up on an empty input, split on "==",
   * and return the second part unless there are fewer than two parts or
   * exactly two parts with an empty second one.
   */
  function ParsePackageVersion(packageVersion: string): (r: Option<string>)
    ensures r.Some? ==> HasSeparator(Trim(packageVersion))
    ensures r.Some? ==> !HasSeparator(r.value)
    ensures r.Some? ==> |Split(Trim(packageVersion))| >= 2 && r.value == Split(Trim(packageVersion))[1]
    ensures Trim(packageVersion) == [] ==> r.None?
    ensures Trim(packageVersion) != [] ==>
      (r.Some? <==> |Split(Trim(packageVersion))| > 2 ||
                    (|Split(Trim(packageVersion))| == 2 && Split(Trim(packageVersion))[1] != []))
  {
    var trimmed := Trim(packageVersion);
    if trimmed == [] then None
    else
      var split := Split(trimmed);
      if |split| < 2 || (|split| == 2 && split[1] == []) then None
      else
        SplitPartsHaveNoSeparator(trimmed);
        SeparatorWhenSeveralParts(trimmed);
        Some(split[1])
  }

  /** More than one part means the input held a separator. */
  lemma SeparatorWhenSeveralParts(s: string)
    requires |Split(s)| >= 2
    ensures HasSeparator(s)
  {
    var parts := Split(s);
    JoinSplit(s);
    var head := parts[0];
    assert Join(parts) == head + "==" + Join(parts[1..]);
    assert s[|head|] == '=' && s[|head| + 1] == '=';
  }

  /** Documented example: no separator gives no version. */
  lemma ExampleNoSeparator()
    ensures ParsePackageVersion("package") == None
  {
    TrimUnpadded("package");
    SplitPlain("package");
  }

  /** Documented example: a separator with nothing after it gives no version. */
  lemma ExampleEmptyTail()
    ensures ParsePackageVersion("package==") == None
  {
    TrimUnpadded("package==");
    assert NoEquals("package");
    SplitNameVersion("package", "");
    assert "package" + "==" + "" == "package==";
  }

  /** Documented example: "package==1.0.0" gives "1.0.0". */
  lemma ExampleVersion()
    ensures ParsePackageVersion("package==1.0.0") == Some("1.0.0")
  {
    var name, version := "package", "1.0.0";
    assert NoEquals(name) && NoEquals(version);
    ParseRoundTrip(name, version);
    assert ParsePackageVersion(name + "==" + version) == Some("1.0.0");
    assert name + "==" + version == "package==1.0.0";
  }

  /** "name==version" splits into the name and the version when neither holds '='. */
  lemma SplitNameVersion(name: string, version: string)
    requires NoEquals(name) && NoEquals(version)
    ensures Split(name + "==" + version) == [name, version]
  {
    var s := name + "==" + version;
    assert s == name + ("==" + version);
    SplitAfterPlain(name, "==" + version);
    SplitAfterSeparator(version);
    SplitPlain(version);
    assert name + "" == name;
  }

  /** Writing "name==version" and parsing it back yields the version. */
  lemma ParseRoundTrip(name: string, version: string)
    requires NoEquals(name) && NoEquals(version) && version != []
    requires name == [] || !IsSpace(name[0])
    requires !IsSpace(version[|version| - 1])
    ensures ParsePackageVersion(name + "==" + version) == Some(version)
    ensures ParsePackageVersionNonEmpty(name + "==" + version) == Some(version)
  {
    var s := name + "==" + version;
    assert s[0] == (if name == [] then '=' else name[0]);
    assert s[|s| - 1] == version[|version| - 1];
    TrimUnpadded(s);
    SplitNameVersion(name, version);
  }

  /** A doubled separator between a name and a version leaves an empty part between them. */
  lemma SplitDoubledSeparator(name: string, version: string)
    requires NoEquals(name) && NoEquals(version)
    ensures Split(name + "====" + version) == [name, "", version]
  {
    var s := name + "====" + version;
    assert s == name + ("==" + ("==" + version));
    SplitAfterPlain(name, "==" + ("==" + version));
    SplitAfterSeparator("==" + version);
    SplitAfterSeparator(version);
    SplitPlain(version);
    assert name + "" == name;
  }

  /** "pkg====1.0" splits into "pkg", an empty part and "1.0". */
  lemma SplitFourEquals()
    ensures Split("pkg====1.0") == ["pkg", "", "1.0"]
  {
    assert NoEquals("pkg") && NoEquals("1.0");
    SplitDoubledSeparator("pkg", "1.0");
    assert "pkg" + "====" + "1.0" == "pkg====1.0";
  }

  /**
   * The empty-version check is skipped when there are more than two parts,
   * so four '=' in a row yield an empty version.
   */
  lemma EmptyVersionAccepted()
    ensures ParsePackageVersion("pkg====1.0") == Some("")
    ensures ParsePackageVersionNonEmpty("pkg====1.0") == None
  {
    TrimUnpadded("pkg====1.0");
    SplitFourEquals();
  }

  /**
   * The parser with the empty-version check applied whatever the number of
   * parts: a version it returns is never empty.
   */
  function ParsePackageVersionNonEmpty(packageVersion: string): (r: Option<string>)
    ensures r.Some? ==> r.value != [] && !HasSeparator(r.value)
    ensures r.Some? ==> HasSeparator(Trim(packageVersion))
    ensures r.Some? ==> r == ParsePackageVersion(packageVersion)
    ensures ParsePackageVersion(packageVersion).Some? && ParsePackageVersion(packageVersion).value != [] ==> r == ParsePackageVersion(packageVersion)
  {
    var trimmed := Trim(packageVersion);
    if trimmed == [] then None
    else
      var split := Split(trimmed);
      if |split| < 2 || split[1] == [] then None
      else
        SplitPartsHaveNoSeparator(trimmed);
        SeparatorWhenSeveralParts(trimmed);
        Some(split[1])
  }
}
