/**
 * The task page's state: the ordered task list `tasks`, the text being typed
 * `task`, and the last list this page wrote to the key-value store.
 */
module Home {
  import opened Wrappers
  import opened TaskList
  import Normalization

  /**
   * What `JSON.parse` gives back for a stored value: an array (of task
   * texts), or any other JSON value.
   */
  datatype Json = JsonArray(items: seq<string>) | JsonOther

  class HomePage {
    var task: string
    var tasks: seq<string>
    /** The list held under the store's task key by this page's last save; None before any. */
    ghost var stored: Option<seq<string>>

    constructor ()
      ensures task == "" && tasks == [] && stored == None
    {
      task := "";
      tasks := [];
      stored := None;
    }

    /** `saveTasks`: the whole list is written as one snapshot. */
    method SaveTasks()
      modifies this`stored
      ensures stored == Some(tasks)
    {
      stored := Some(tasks);
    }

    /**
     * `ionViewWillEnter`: `value` is what the store holds under the task key
     * and `parse` stands for `JSON.parse`.  The list is replaced only when the
     * value is a non-empty string that parses to an array; it is not checked
     * for duplicates.
     */
    method IonViewWillEnter(value: Option<string>, parse: string -> Json)
      modifies this`tasks
      ensures Truthy(value) && parse(value.value).JsonArray? ==>
        tasks == parse(value.value).items
      ensures !(Truthy(value) && parse(value.value).JsonArray?) ==>
        tasks == old(tasks)
    {
      if Truthy(value) {
        var parsed := parse(value.value);
        if parsed.JsonArray? {
          tasks := parsed.items;
        }
      }
    }

    /**
     * `addTask`, with the intended duplicate test: appends `task` unchanged
     * when no task shares its key, then clears `task` and saves; otherwise
     * changes nothing.  `added` tells which of the two alerts is shown.
     */
    method AddTask() returns (added: bool)
      modifies this
      ensures added <==> !ExistsTask(old(tasks), old(task))
      ensures added ==> tasks == old(tasks) + [old(task)] && task == "" && stored == Some(tasks)
      ensures !added ==> tasks == old(tasks) && task == old(task) && stored == old(stored)
      ensures NoDuplicates(old(tasks)) ==> NoDuplicates(tasks)
    {
      if !ExistsTask(tasks, task) {
        assert NoDuplicates(tasks) ==> NoDuplicates(tasks + [task]) by {
          if NoDuplicates(tasks) { AddKeepsNoDuplicates(tasks, task); }
        }
        tasks := tasks + [task];
        task := "";
        SaveTasks();
        added := true;
      } else {
        added := false;
      }
    }

    /**
     * `addTask` as written: the duplicate test is the truthiness of the
     * `find` result, so a first match equal to "" goes unnoticed.
     */
    method AddTaskAsWritten() returns (added: bool)
      modifies this
      ensures added <==> !ExistsTaskAsWritten(old(tasks), old(task))
      ensures added ==> tasks == old(tasks) + [old(task)] && task == "" && stored == Some(tasks)
      ensures !added ==> tasks == old(tasks) && task == old(task) && stored == old(stored)
    {
      if !ExistsTaskAsWritten(tasks, task) {
        tasks := tasks + [task];
        task := "";
        SaveTasks();
        added := true;
      } else {
        added := false;
      }
    }

    /** The `findIndex` scan of `removeTask`: the first task matching `target`, or -1. */
    method FindTaskIndex(target: string) returns (index: int)
      ensures -1 <= index < |tasks|
      ensures index == -1 <==> !ExistsTask(tasks, target)
      ensures 0 <= index ==> Matches(tasks[index], target)
      ensures forall j :: 0 <= j < index ==> !Matches(tasks[j], target)
      ensures index == FirstMatchIndex(tasks, target)
    {
      var key := Normalization.Normalize(target);
      var i := 0;
      while i < |tasks|
        invariant 0 <= i <= |tasks|
        invariant forall j :: 0 <= j < i ==> Normalization.Normalize(tasks[j]) != key
      {
        if Normalization.Normalize(tasks[i]) == key {
          FirstMatchIsUnique(tasks, target, i);
          return i;
        }
        i := i + 1;
      }
      index := -1;
    }

    /**
     * `removeTask`: deletes the first task matching `target` (`splice(i, 1)`)
     * and saves; when none matches, changes nothing.
     */
    method RemoveTask(target: string)
      modifies this
      ensures var i := FirstMatchIndex(old(tasks), target);
        if i == -1 then tasks == old(tasks) && stored == old(stored)
        else tasks == old(tasks)[..i] + old(tasks)[i + 1..] && stored == Some(tasks)
      ensures task == old(task)
      ensures NoDuplicates(old(tasks)) ==> NoDuplicates(tasks)
    {
      var index := FindTaskIndex(target);
      if index != -1 {
        assert NoDuplicates(tasks) ==> NoDuplicates(tasks[..index] + tasks[index + 1..]) by {
          if NoDuplicates(tasks) { RemoveKeepsNoDuplicates(tasks, index); }
        }
        tasks := tasks[..index] + tasks[index + 1..];
        SaveTasks();
      }
    }

    /**
     * `orderTasks`: `complete` stands for the reorder event's `complete`,
     * which hands back the list in its new order; the list is replaced by it
     * and saved.
     */
    method OrderTasks(complete: seq<string> -> seq<string>)
      modifies this
      ensures tasks == complete(old(tasks))
      ensures task == old(task) && stored == Some(tasks)
    {
      tasks := complete(tasks);
      SaveTasks();
    }
  }

  /**
   * Pressing "add" twice on an empty input, from a fresh page: the code as
   * written stores "" twice, the intended test stores it once.
   */
  method BlankTaskTwice() returns (asWritten: seq<string>, corrected: seq<string>)
    ensures asWritten == ["", ""] && !NoDuplicates(asWritten)
    ensures corrected == [""]
  {
    var page := new HomePage();
    var _ := page.AddTaskAsWritten();
    var _ := page.AddTaskAsWritten();
    asWritten := page.tasks;
    assert Normalization.Normalize(asWritten[0]) == Normalization.Normalize(asWritten[1]);

    var other := new HomePage();
    var _ := other.AddTask();
    var _ := other.AddTask();
    corrected := other.tasks;
  }
}
