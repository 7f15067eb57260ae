/**
 * The requirements-file parser (`file_path_to_hashmap`): each line is
 * "name==version"; comment lines start with '#'. Opening and reading the
 * file is outside the model: the parser receives the file's lines.
 */
module Requirements {
  import opened Wrappers
  import opened Text

  /** The parse errors; line numbers are 1-based. */
  datatype UploadRequirementsError =
    | InvalidFormat(lineNumber: nat, line: string)
    | DuplicatePackage(key: string, lineNumber: nat, existingValue: string, newValue: string)
  {
    function LineNumber(): nat {
      match this
      case InvalidFormat(n, _) => n
      case DuplicatePackage(_, n, _, _) => n
    }
  }

  /** What one line of the file is, once trimmed, checked for '#' and split on "==". */
  datatype Line =
    | Comment
    | Malformed(trimmed: string)
    | Entry(key: string, value: string)

  /**
   * The reading of one line: a trimmed line starting with '#' is a comment;
   * otherwise it must split into exactly two parts (a blank line does not),
   * and both parts are lower-cased.
   */
  function Analyse(raw: string): (l: Line)
    ensures l.Comment? <==> Trim(raw) != [] && Trim(raw)[0] == '#'
    ensures l.Malformed? ==> l.trimmed == Trim(raw) && |Split(Trim(raw))| != 2
    ensures l.Entry? ==> |Split(Trim(raw))| == 2
    ensures l.Entry? ==> l.key == Lower(Split(Trim(raw))[0]) && l.value == Lower(Split(Trim(raw))[1])
    ensures !l.Comment? && |Split(Trim(raw))| == 2 ==> l.Entry?
  {
    var line := Trim(raw);
    if line != [] && line[0] == '#' then Comment
    else
      var package := Split(line);
      if |package| != 2 then Malformed(line)
      else Entry(Lower(package[0]), Lower(package[1]))
  }

  function AnalyseAll(lines: seq<string>): (ls: seq<Line>)
    ensures |ls| == |lines|
  {
    seq(|lines|, i requires 0 <= i < |lines| => Analyse(lines[i]))
  }

  /** What the loop does with one line, given the map built from the lines before it. */
  function Step(requirements: map<string, string>, line: Line, lineNumber: nat)
    : Result<map<string, string>, UploadRequirementsError>
  {
    match line
    case Comment => Success(requirements)
    case Malformed(trimmed) => Failure(InvalidFormat(lineNumber, trimmed))
    case Entry(key, value) =>
      if key in requirements then Failure(DuplicatePackage(key, lineNumber, requirements[key], value))
      else Success(requirements[key := value])
  }

  /** The lines in order, each numbered from 1, stopping at the first error. */
  function ParseAnalysed(ls: seq<Line>): Result<map<string, string>, UploadRequirementsError>
  {
    if ls == [] then Success(map[])
    else
      match ParseAnalysed(ls[..|ls| - 1])
      case Failure(e) => Failure(e)
      case Success(m) => Step(m, ls[|ls| - 1], |ls|)
  }

  /** The parse of a whole file. */
  function ParseLines(lines: seq<string>): Result<map<string, string>, UploadRequirementsError> {
    ParseAnalysed(AnalyseAll(lines))
  }

  /** The number of lines that are not comments. */
  function EntryCount(ls: seq<Line>): nat {
    if ls == [] then 0
    else EntryCount(ls[..|ls| - 1]) + if ls[|ls| - 1].Comment? then 0 else 1
  }

  /** `file_path_to_hashmap` over the lines of the file. */
  method FilePathToHashmap(lines: seq<string>) returns (r: Result<map<string, string>, UploadRequirementsError>)
    ensures r == ParseLines(lines)
  {
    ghost var ls := AnalyseAll(lines);
    var requirements: map<string, string> := map[];
    var lineNumber := 0;
    while lineNumber < |lines|
      invariant 0 <= lineNumber <= |lines|
      invariant ParseAnalysed(ls[..lineNumber]) == Success(requirements)
    {
      ParseAnalysedStep(ls, lineNumber);
      assert ls[lineNumber] == Analyse(lines[lineNumber]);
      var line := Trim(lines[lineNumber]);
      if line != [] && line[0] == '#' {
        lineNumber := lineNumber + 1;
        continue;
      }
      var package := Split(line);
      if |package| != 2 {
        r := Failure(InvalidFormat(lineNumber + 1, line));
        FailureIsFinal(ls, lineNumber + 1);
        return;
      }
      var key := Lower(package[0]);
      var value := Lower(package[1]);
      if key in requirements {
        r := Failure(DuplicatePackage(key, lineNumber + 1, requirements[key], value));
        FailureIsFinal(ls, lineNumber + 1);
        return;
      }
      requirements := requirements[key := value];
      lineNumber := lineNumber + 1;
    }
    assert ls[..|lines|] == ls;
    r := Success(requirements);
  }

  /** One more line after a successful prefix is one more step, numbered from 1. */
  lemma ParseAnalysedStep(ls: seq<Line>, n: nat)
    requires n < |ls|
    requires ParseAnalysed(ls[..n]).Success?
    ensures ParseAnalysed(ls[..n + 1]) == Step(ParseAnalysed(ls[..n]).value, ls[n], n + 1)
  {
    assert ls[..n + 1][..n] == ls[..n];
  }

  /** Parsing stops at the first error: later lines cannot change it. */
  lemma {:induction false} FailureIsFinal(ls: seq<Line>, n: nat)
    requires n <= |ls|
    requires ParseAnalysed(ls[..n]).Failure?
    ensures ParseAnalysed(ls) == ParseAnalysed(ls[..n])
    decreases |ls| - n
  {
    if n < |ls| {
      assert ls[..n + 1][..n] == ls[..n];
      FailureIsFinal(ls, n + 1);
    } else {
      assert ls[..n] == ls;
    }
  }

  /** On success every non-comment line is stored: its name maps to its version. */
  lemma {:induction false} ParsedValues(ls: seq<Line>, m: map<string, string>)
    requires ParseAnalysed(ls) == Success(m)
    ensures forall i :: 0 <= i < |ls| && !ls[i].Comment? ==>
      ls[i].Entry? && ls[i].key in m && m[ls[i].key] == ls[i].value
  {
    if ls != [] {
      var prefix := ls[..|ls| - 1];
      ParsedValues(prefix, ParseAnalysed(prefix).value);
      assert forall i :: 0 <= i < |prefix| ==> prefix[i] == ls[i];
    }
  }

  /** On success the map holds nothing but the names of non-comment lines. */
  lemma {:induction false} ParsedKeys(ls: seq<Line>, m: map<string, string>)
    requires ParseAnalysed(ls) == Success(m)
    ensures forall k :: k in m ==> exists i :: 0 <= i < |ls| && ls[i].Entry? && ls[i].key == k
  {
    if ls != [] {
      var prefix := ls[..|ls| - 1];
      var pm := ParseAnalysed(prefix).value;
      ParsedKeys(prefix, pm);
      forall k | k in m ensures exists i :: 0 <= i < |ls| && ls[i].Entry? && ls[i].key == k {
        if k in pm {
          var i :| 0 <= i < |prefix| && prefix[i].Entry? && prefix[i].key == k;
          assert ls[i] == prefix[i];
        } else {
          assert ls[|ls| - 1].Entry? && ls[|ls| - 1].key == k;
        }
      }
    }
  }

  /** On success there is exactly one entry per non-comment line. */
  lemma {:induction false} ParsedSize(ls: seq<Line>, m: map<string, string>)
    requires ParseAnalysed(ls) == Success(m)
    ensures |m| == EntryCount(ls)
  {
    if ls != [] {
      var prefix := ls[..|ls| - 1];
      ParsedSize(prefix, ParseAnalysed(prefix).value);
    }
  }

  /** Every non-comment line is "name==version" and no lower-cased name repeats. */
  predicate Acceptable(ls: seq<Line>) {
    && (forall i :: 0 <= i < |ls| ==> !ls[i].Malformed?)
    && (forall i, j :: 0 <= i < j < |ls| && ls[i].Entry? && ls[j].Entry? ==> ls[i].key != ls[j].key)
  }

  /** The parse succeeds exactly when the file is acceptable. */
  lemma {:induction false} ParseSucceedsIff(ls: seq<Line>)
    ensures ParseAnalysed(ls).Success? <==> Acceptable(ls)
  {
    if ls != [] {
      var prefix := ls[..|ls| - 1];
      var last := ls[|ls| - 1];
      ParseSucceedsIff(prefix);
      assert forall i :: 0 <= i < |prefix| ==> prefix[i] == ls[i];
      if ParseAnalysed(prefix).Success? {
        var pm := ParseAnalysed(prefix).value;
        if last.Entry? && last.key in pm {
          ParsedKeys(prefix, pm);
          var i :| 0 <= i < |prefix| && prefix[i].Entry? && prefix[i].key == last.key;
          assert ls[i].key == ls[|ls| - 1].key;
        } else if last.Entry? {
          ParsedValues(prefix, pm);
        } else if last.Malformed? {
          assert ls[|ls| - 1].Malformed?;
        }
      } else if Acceptable(ls) {
        assert Acceptable(prefix);
      }
    }
  }

  /**
   * A failure names the first offending line: every line before it parses,
   * that line is not a comment, and it is either malformed (reported trimmed)
   * or repeats a name already stored (reported with both versions).
   */
  lemma {:induction false} FirstErrorReported(ls: seq<Line>)
    requires ParseAnalysed(ls).Failure?
    ensures var e := ParseAnalysed(ls).error;
      && 1 <= e.LineNumber() <= |ls|
      && ParseAnalysed(ls[..e.LineNumber() - 1]).Success?
      && !ls[e.LineNumber() - 1].Comment?
      && Step(ParseAnalysed(ls[..e.LineNumber() - 1]).value, ls[e.LineNumber() - 1], e.LineNumber()) == Failure(e)
  {
    var prefix := ls[..|ls| - 1];
    if ParseAnalysed(prefix).Failure? {
      FirstErrorReported(prefix);
      var n := ParseAnalysed(prefix).error.LineNumber();
      assert prefix[..n - 1] == ls[..n - 1];
      assert prefix[n - 1] == ls[n - 1];
    } else {
      assert ls[..|ls| - 1] == prefix;
    }
  }

  /** A plain "name==version" line is an entry with both parts lower-cased. */
  lemma AnalyseEntry(name: string, version: string)
    requires NoEquals(name) && NoEquals(version) && name != [] && version != []
    requires !IsSpace(name[0]) && !IsSpace(version[|version| - 1]) && name[0] != '#'
    ensures Analyse(name + "==" + version) == Entry(Lower(name), Lower(version))
  {
    var s := name + "==" + version;
    assert s[0] == name[0] && s[|s| - 1] == version[|version| - 1];
    TrimUnpadded(s);
    assert s == name + ("==" + version);
    SplitAfterPlain(name, "==" + version);
    SplitAfterSeparator(version);
    SplitPlain(version);
    assert Split(s) == [name + "", version];
  }

  /** A two-line file is read line 1 first, then line 2. */
  lemma ParseTwoLines(first: string, second: string)
    ensures ParseLines([first, second]) ==
      match Step(map[], Analyse(first), 1)
      case Failure(e) => Failure(e)
      case Success(m) => Step(m, Analyse(second), 2)
  {
    var ls := AnalyseAll([first, second]);
    assert ls == [Analyse(first), Analyse(second)];
    assert ls[..1] == [ls[0]] && [ls[0]][..0] == [];
    assert ParseAnalysed([ls[0]]) == Step(map[], ls[0], 1);
  }

  lemma AnalyseBlank()
    ensures Analyse("") == Malformed("")
  {
    assert Trim("") == [] && Split("") == [""];
  }

  lemma LowerFlask()
    ensures Lower("Flask") == "flask" && Lower("flask") == "flask" && Lower("2.0") == "2.0"
  {
  }

  lemma AnalyseFlask()
    ensures Analyse("flask==2.0") == Entry("flask", "2.0")
  {
    assert "flask" + "==" + "2.0" == "flask==2.0";
    AnalyseEntry("flask", "2.0");
    LowerFlask();
  }

  lemma AnalyseCapitalFlask()
    ensures Analyse("Flask==2.0") == Entry("flask", "2.0")
  {
    assert "Flask" + "==" + "2.0" == "Flask==2.0";
    AnalyseEntry("Flask", "2.0");
    LowerFlask();
  }

  /** A blank line is not skipped: it is an invalid line. */
  lemma BlankLineRejected()
    ensures ParseLines(["flask==2.0", ""]) == Failure(InvalidFormat(2, ""))
  {
    ParseTwoLines("flask==2.0", "");
    AnalyseFlask();
    AnalyseBlank();
  }

  /** A name given twice is an error even when both versions agree; names compare lower-cased. */
  lemma RepeatedNameRejected()
    ensures ParseLines(["Flask==2.0", "flask==2.0"]) == Failure(DuplicatePackage("flask", 2, "2.0", "2.0"))
  {
    ParseTwoLines("Flask==2.0", "flask==2.0");
    AnalyseCapitalFlask();
    AnalyseFlask();
  }
}
