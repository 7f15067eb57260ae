/** Tasks: the two-way lookup table between task names and task ids (`get_task_hashmap`). */
module Tasks {
  import opened Wrappers
  import opened Resources

  /** `HashMap::insert` applied to each pair in turn, starting from the empty map. */
  function FoldInserts(pairs: seq<(string, string)>): map<string, string> {
    if pairs == [] then map[]
    else
      var (k, v) := pairs[|pairs| - 1];
      FoldInserts(pairs[..|pairs| - 1])[k := v]
  }

  function KeysOf(pairs: seq<(string, string)>): set<string> {
    set i | 0 <= i < |pairs| :: pairs[i].0
  }

  /** The keys of the folded map are exactly the keys inserted. */
  lemma {:induction false} FoldInsertsKeys(pairs: seq<(string, string)>)
    ensures FoldInserts(pairs).Keys == KeysOf(pairs)
  {
    if pairs != [] {
      var prefix := pairs[..|pairs| - 1];
      FoldInsertsKeys(prefix);
      assert forall i | 0 <= i < |prefix| :: prefix[i] == pairs[i];
      assert KeysOf(pairs) == KeysOf(prefix) + {pairs[|pairs| - 1].0};
    }
  }

  /** The last insert of a key decides its value. */
  lemma {:induction false} LastWriterWins(pairs: seq<(string, string)>, i: nat)
    requires i < |pairs|
    requires forall j | i < j < |pairs| :: pairs[j].0 != pairs[i].0
    ensures pairs[i].0 in FoldInserts(pairs) && FoldInserts(pairs)[pairs[i].0] == pairs[i].1
  {
    if i < |pairs| - 1 {
      LastWriterWins(pairs[..|pairs| - 1], i);
    }
  }

  /** Each insert adds at most one key. */
  lemma {:induction false} FoldInsertsSize(pairs: seq<(string, string)>)
    ensures |FoldInserts(pairs)| <= |pairs|
  {
    if pairs != [] {
      FoldInsertsSize(pairs[..|pairs| - 1]);
    }
  }

  /** The inserts of the loop: for each task in list order, name to id, then id to name. */
  function TaskInsertions(tasks: seq<LightTask>): (pairs: seq<(string, string)>)
    ensures |pairs| == 2 * |tasks|
    ensures forall i | 0 <= i < |tasks| ::
      pairs[2 * i] == (tasks[i].name, tasks[i].id) && pairs[2 * i + 1] == (tasks[i].id, tasks[i].name)
  {
    if tasks == [] then []
    else
      var t := tasks[|tasks| - 1];
      TaskInsertions(tasks[..|tasks| - 1]) + [(t.name, t.id), (t.id, t.name)]
  }

  /** One loop iteration: the two inserts of one more task, applied after the earlier ones. */
  lemma TaskMapSnoc(tasks: seq<LightTask>, t: LightTask)
    ensures TaskMap(tasks + [t]) == TaskMap(tasks)[t.name := t.id][t.id := t.name]
  {
    assert (tasks + [t])[..|tasks|] == tasks;
    var pairs := TaskInsertions(tasks);
    var longer := pairs + [(t.name, t.id), (t.id, t.name)];
    assert TaskInsertions(tasks + [t]) == longer;
    var middle := pairs + [(t.name, t.id)];
    assert longer[..|longer| - 1] == middle;
    assert middle[..|middle| - 1] == pairs;
    assert FoldInserts(middle) == FoldInserts(pairs)[t.name := t.id];
    assert FoldInserts(longer) == FoldInserts(middle)[t.id := t.name];
  }

  function TaskMap(tasks: seq<LightTask>): map<string, string> {
    FoldInserts(TaskInsertions(tasks))
  }

  /** `get_task_hashmap`: the fetched tasks, folded into one map in list order. */
  method GetTaskHashmap(fetched: Result<seq<LightTask>, ClientError>) returns (r: Result<map<string, string>, ClientError>)
    ensures fetched.Failure? ==> r == Failure(fetched.error)
    ensures fetched.Success? ==> r == Success(TaskMap(fetched.value))
  {
    if fetched.Failure? {
      return Failure(fetched.error);
    }
    var tasks := fetched.value;
    var hashmap := map[];
    var i := 0;
    while i < |tasks|
      invariant 0 <= i <= |tasks|
      invariant hashmap == TaskMap(tasks[..i])
    {
      assert tasks[..i + 1] == tasks[..i] + [tasks[i]];
      TaskMapSnoc(tasks[..i], tasks[i]);
      hashmap := hashmap[tasks[i].name := tasks[i].id];
      hashmap := hashmap[tasks[i].id := tasks[i].name];
      i := i + 1;
    }
    assert tasks[..|tasks|] == tasks;
    r := Success(hashmap);
  }

  /** The keys are exactly the names together with the ids of all tasks, and there are at most two per task. */
  lemma TaskMapKeys(tasks: seq<LightTask>)
    ensures TaskMap(tasks).Keys ==
      (set i | 0 <= i < |tasks| :: tasks[i].name) + (set i | 0 <= i < |tasks| :: tasks[i].id)
    ensures |TaskMap(tasks)| <= 2 * |tasks|
  {
    var pairs := TaskInsertions(tasks);
    FoldInsertsKeys(pairs);
    FoldInsertsSize(pairs);
    forall k | k in KeysOf(pairs)
      ensures k in (set i | 0 <= i < |tasks| :: tasks[i].name) + (set i | 0 <= i < |tasks| :: tasks[i].id)
    {
      var j :| 0 <= j < |pairs| && pairs[j].0 == k;
      var t := j / 2;
      if j == 2 * t {
        assert pairs[2 * t] == (tasks[t].name, tasks[t].id);
        assert tasks[t].name in (set i | 0 <= i < |tasks| :: tasks[i].name);
      } else {
        assert j == 2 * t + 1;
        assert pairs[2 * t + 1] == (tasks[t].id, tasks[t].name);
        assert tasks[t].id in (set i | 0 <= i < |tasks| :: tasks[i].id);
      }
    }
    forall i | 0 <= i < |tasks| ensures tasks[i].name in KeysOf(pairs) && tasks[i].id in KeysOf(pairs) {
      assert pairs[2 * i].0 == tasks[i].name;
      assert pairs[2 * i + 1].0 == tasks[i].id;
    }
  }

  /** No two names, no two ids, and no name and id coincide. */
  predicate AllDistinct(tasks: seq<LightTask>) {
    && (forall i, j | 0 <= i < j < |tasks| :: tasks[i].name != tasks[j].name && tasks[i].id != tasks[j].id)
    && (forall i, j | 0 <= i < |tasks| && 0 <= j < |tasks| :: tasks[i].name != tasks[j].id)
  }

  /** With distinct names and ids, the map is a two-way lookup: name to id and id to name. */
  lemma TaskMapIsBidirectional(tasks: seq<LightTask>, i: nat)
    requires AllDistinct(tasks)
    requires i < |tasks|
    ensures tasks[i].name in TaskMap(tasks) && TaskMap(tasks)[tasks[i].name] == tasks[i].id
    ensures tasks[i].id in TaskMap(tasks) && TaskMap(tasks)[tasks[i].id] == tasks[i].name
  {
    var pairs := TaskInsertions(tasks);
    assert pairs[2 * i] == (tasks[i].name, tasks[i].id) && pairs[2 * i + 1] == (tasks[i].id, tasks[i].name);
    forall j | 2 * i < j < |pairs| ensures pairs[j].0 != pairs[2 * i].0 {
      var t := j / 2;
      if j == 2 * t {
        assert pairs[2 * t] == (tasks[t].name, tasks[t].id);
      } else {
        assert pairs[2 * t + 1] == (tasks[t].id, tasks[t].name);
      }
    }
    LastWriterWins(pairs, 2 * i);
    forall j | 2 * i + 1 < j < |pairs| ensures pairs[j].0 != pairs[2 * i + 1].0 {
      var t := j / 2;
      if j == 2 * t {
        assert pairs[2 * t] == (tasks[t].name, tasks[t].id);
      } else {
        assert pairs[2 * t + 1] == (tasks[t].id, tasks[t].name);
      }
    }
    LastWriterWins(pairs, 2 * i + 1);
  }

  /** When a name equals a later task's id, the later insert wins and the name no longer leads to its own id. */
  lemma NameShadowedByLaterId()
    ensures var first := LightTask("a1", "b2", false, None, "script");
      var second := LightTask("b2", "c3", false, None, "script");
      TaskMap([first, second])["b2"] == "c3"
  {
    var first := LightTask("a1", "b2", false, None, "script");
    var second := LightTask("b2", "c3", false, None, "script");
    var pairs := TaskInsertions([first, second]);
    assert pairs[3] == ("b2", "c3");
    LastWriterWins(pairs, 3);
  }
}
