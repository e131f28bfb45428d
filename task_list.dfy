/**
 * The pure part of the task page: searching the ordered task list for a text
 * under the comparison key, and the "no two tasks share a key" property that
 * adding and removing keep.
 */
module TaskList {
  import opened Wrappers
  import opened Normalization

  /** The predicate handed to `find` and `findIndex`: equal comparison keys. */
  function Matches(item: string, candidate: string): (b: bool)
    ensures item == candidate ==> b
  {
    Normalize(item) == Normalize(candidate)
  }

  /** No two tasks of the list have the same comparison key. */
  predicate NoDuplicates(tasks: seq<string>) {
    forall i, j {:trigger Normalize(tasks[i]), Normalize(tasks[j])} :: 0 <= i < j < |tasks| ==> Normalize(tasks[i]) != Normalize(tasks[j])
  }

  /**
   * The scan `findIndex` makes, from index `from` on: the first index at or
   * after `from` whose task matches, or -1 when none of them does.
   */
  function FirstMatchFrom(tasks: seq<string>, candidate: string, from: nat): (i: int)
    requires from <= |tasks|
    ensures i == -1 || from <= i < |tasks|
    ensures i == -1 <==> forall j {:trigger Matches(tasks[j], candidate)} :: from <= j < |tasks| ==> !Matches(tasks[j], candidate)
    ensures 0 <= i ==> Matches(tasks[i], candidate)
    ensures forall j {:trigger Matches(tasks[j], candidate)} :: from <= j < i ==> !Matches(tasks[j], candidate)
    decreases |tasks| - from
  {
    if from == |tasks| then -1
    else if Matches(tasks[from], candidate) then from
    else FirstMatchFrom(tasks, candidate, from + 1)
  }

  /**
   * `findIndex` with `Matches`: the index of the first matching task, or -1
   * when no task matches.
   */
  function FirstMatchIndex(tasks: seq<string>, candidate: string): (i: int)
    ensures -1 <= i < |tasks|
    ensures i == -1 <==> forall j {:trigger Matches(tasks[j], candidate)} :: 0 <= j < |tasks| ==> !Matches(tasks[j], candidate)
    ensures 0 <= i ==> Matches(tasks[i], candidate)
    ensures forall j {:trigger Matches(tasks[j], candidate)} :: 0 <= j < i ==> !Matches(tasks[j], candidate)
  {
    FirstMatchFrom(tasks, candidate, 0)
  }

  /**
   * `find` with `Matches`, the value `existsTask` returns: the first matching
   * task itself, or `undefined` (None).
   */
  function Find(tasks: seq<string>, candidate: string): (found: Option<string>)
    ensures found.Some? <==> exists j {:trigger Matches(tasks[j], candidate)} :: 0 <= j < |tasks| && Matches(tasks[j], candidate)
    ensures found.Some? ==> found.value in tasks && Matches(found.value, candidate)
    ensures found.Some? ==> found.value == tasks[FirstMatchIndex(tasks, candidate)]
  {
    var i := FirstMatchIndex(tasks, candidate);
    if i == -1 then None else Some(tasks[i])
  }

  /**
   * JavaScript truthiness of a string that may be absent (`undefined` from
   * `find`, `null` from the store): present and not "".
   */
  function Truthy(found: Option<string>): (b: bool)
    ensures b ==> found.Some?
    ensures found.Some? && |found.value| > 0 ==> b
    ensures found == Some("") ==> !b
  {
    found.Some? && found.value != ""
  }

  /**
   * The duplicate test as `addTask` writes it: the truthiness of what
   * `existsTask` returns.  It misses a match whose first matching task is "".
   */
  function ExistsTaskAsWritten(tasks: seq<string>, candidate: string): (b: bool)
    ensures b ==> exists j {:trigger Matches(tasks[j], candidate)} :: 0 <= j < |tasks| && Matches(tasks[j], candidate)
  {
    Truthy(Find(tasks, candidate))
  }

  /**
   * The duplicate test `addTask` intends: some task has the candidate's
   * comparison key (`find(...) !== undefined`).
   */
  function ExistsTask(tasks: seq<string>, candidate: string): (b: bool)
    ensures b <==> exists j {:trigger Matches(tasks[j], candidate)} :: 0 <= j < |tasks| && Matches(tasks[j], candidate)
  {
    Find(tasks, candidate).Some?
  }

  /** The two tests disagree only on a candidate whose key is empty. */
  lemma AsWrittenAgreesOnNonBlank(tasks: seq<string>, candidate: string)
    requires Normalize(candidate) != ""
    ensures ExistsTaskAsWritten(tasks, candidate) == ExistsTask(tasks, candidate)
  {
    var found := Find(tasks, candidate);
    if found.Some? {
      assert Normalize(found.value) != "";
    }
  }

  /**
   * The test as written lets a second "" in: a list without duplicates that
   * holds "" does not report "" as present, and appending it breaks the
   * no-duplicates property.
   */
  lemma AsWrittenAdmitsBlankDuplicate(tasks: seq<string>)
    requires NoDuplicates(tasks) && "" in tasks
    ensures ExistsTask(tasks, "")
    ensures !ExistsTaskAsWritten(tasks, "")
    ensures !NoDuplicates(tasks + [""])
  {
    var i :| 0 <= i < |tasks| && tasks[i] == "";
    assert Normalize("") == "";
    assert Matches(tasks[i], "");
    var j := FirstMatchIndex(tasks, "");
    assert j == i;
    var t := tasks + [""];
    assert t[i] == "" && t[|tasks|] == "";
  }

  /** The duplicate test ignores surrounding white space on the candidate. */
  lemma ExistsTaskIgnoresSurroundingWhitespace(tasks: seq<string>, pre: string, candidate: string, post: string)
    requires AllWhitespace(pre) && AllWhitespace(post)
    ensures ExistsTask(tasks, pre + candidate + post) == ExistsTask(tasks, candidate)
  {
    NormalizeIgnoresSurroundingWhitespace(pre, candidate, post);
    assert forall j :: 0 <= j < |tasks| ==>
      (Matches(tasks[j], pre + candidate + post) <==> Matches(tasks[j], candidate));
  }

  /** Appending a task whose key is absent keeps the keys distinct. */
  lemma AddKeepsNoDuplicates(tasks: seq<string>, candidate: string)
    requires NoDuplicates(tasks)
    requires !ExistsTask(tasks, candidate)
    ensures NoDuplicates(tasks + [candidate])
  {
    var t := tasks + [candidate];
    forall i, j | 0 <= i < j < |t|
      ensures Normalize(t[i]) != Normalize(t[j])
    {
      if j == |tasks| {
        assert !Matches(tasks[i], candidate);
      }
    }
  }

  /** Deleting one task (the `splice(i, 1)`) keeps the keys distinct. */
  lemma RemoveKeepsNoDuplicates(tasks: seq<string>, i: int)
    requires NoDuplicates(tasks)
    requires 0 <= i < |tasks|
    ensures NoDuplicates(tasks[..i] + tasks[i + 1..])
  {
    var t := tasks[..i] + tasks[i + 1..];
    forall a, b | 0 <= a < b < |t|
      ensures Normalize(t[a]) != Normalize(t[b])
    {
      var a' := if a < i then a else a + 1;
      var b' := if b < i then b else b + 1;
      assert t[a] == tasks[a'] && t[b] == tasks[b'];
    }
  }

  /**
   * With distinct keys, deleting the first match deletes every match: the
   * text is no longer present afterwards.
   */
  lemma RemoveLeavesNoMatch(tasks: seq<string>, candidate: string)
    requires NoDuplicates(tasks)
    requires ExistsTask(tasks, candidate)
    ensures var i := FirstMatchIndex(tasks, candidate);
      0 <= i && !ExistsTask(tasks[..i] + tasks[i + 1..], candidate)
  {
    var i := FirstMatchIndex(tasks, candidate);
    var key := Normalize(candidate);
    assert Normalize(tasks[i]) == key;
    var t := tasks[..i] + tasks[i + 1..];
    forall a | 0 <= a < |t|
      ensures !Matches(t[a], candidate)
    {
      if a < i {
        assert t[a] == tasks[a];
      } else {
        assert t[a] == tasks[a + 1];
        assert Normalize(tasks[i]) != Normalize(tasks[a + 1]);
      }
    }
    assert !ExistsTask(t, candidate);
  }

  /** Removing a text just added (when it was absent) restores the list. */
  lemma RemoveUndoesAdd(tasks: seq<string>, candidate: string)
    requires !ExistsTask(tasks, candidate)
    ensures var t := tasks + [candidate];
      FirstMatchIndex(t, candidate) == |tasks| &&
      t[..|tasks|] + t[|tasks| + 1..] == tasks
  {
    var t := tasks + [candidate];
    assert Matches(t[|tasks|], candidate);
    assert forall j :: 0 <= j < |tasks| ==> t[j] == tasks[j];
    assert t[..|tasks|] == tasks;
  }

  /** An index that matches and has no match before it is the first match. */
  lemma FirstMatchIsUnique(tasks: seq<string>, candidate: string, i: int)
    requires 0 <= i < |tasks| && Matches(tasks[i], candidate)
    requires forall j {:trigger Matches(tasks[j], candidate)} :: 0 <= j < i ==> !Matches(tasks[j], candidate)
    ensures FirstMatchIndex(tasks, candidate) == i
  {
  }
}
