/**
 * src/scraper_coordinator.py: the task registry of `ScraperCoordinator` and
 * the lifecycle PENDING -> ACTIVE -> FINISHED | FAILED of its tasks.
 *
 * The worker pool is not modelled as threads: `execute_task` appends the
 * task to `running`, the queue of submitted `_perform_scrape` calls, and
 * `PerformScrape` runs one of them, in any order, with the scraper's outcome
 * and the clock reading as parameters.
 */
module Coordinator {
  import opened Wrappers

  datatype TaskState = Pending | Active | Finished | Failed {
    /** `TaskState.value`. */
    function Value(): (s: string)
      ensures s in {"pending", "active", "finished", "failed"}
      ensures (s == "pending" <==> this == Pending) && (s == "active" <==> this == Active)
      ensures (s == "finished" <==> this == Finished) && (s == "failed" <==> this == Failed)
    {
      match this
      case Pending => "pending"
      case Active => "active"
      case Finished => "finished"
      case Failed => "failed"
    }
  }

  /** What one run of `scrape_plugins` gives: the collected dict, or the message of the exception it raised. */
  datatype ScrapeOutcome<V> = Collected(data: map<string, V>) | Raised(message: string)

  /** The dict `get_task_info` returns. */
  datatype TaskInfo = TaskInfo(state: string, items: int, timestamp: Option<string>, error: Option<string>)

  /** `ScraperTask`; the scraper class is named by `scraperType`. */
  class ScraperTask<V> {
    const identifier: string
    const scraperType: string
    const pageLimit: int
    var state: TaskState
    var resultData: map<string, V>
    var itemCount: int
    var completedAt: Option<string>
    var errorInfo: Option<string>

    /** A fresh task: PENDING, no data, no count, no timestamp, no error. */
    constructor (identifier: string, scraperType: string, pageLimit: int)
      ensures this.identifier == identifier && this.scraperType == scraperType && this.pageLimit == pageLimit
      ensures state == Pending && resultData == map[] && itemCount == 0
      ensures completedAt == None && errorInfo == None
    {
      this.identifier := identifier;
      this.scraperType := scraperType;
      this.pageLimit := pageLimit;
      state := Pending;
      resultData := map[];
      itemCount := 0;
      completedAt := None;
      errorInfo := None;
    }
  }

  class ScraperCoordinator<V> {
    var registry: map<string, ScraperTask<V>>
    /** The tasks submitted to the worker pool whose `_perform_scrape` has not run yet, in submission order. */
    var running: seq<ScraperTask<V>>
    const workerPoolSize: int

    /**
     * Every task is registered under its own identifier; the submitted tasks
     * are ACTIVE and distinct, and a registered ACTIVE task is one of them:
     * so no task is ever submitted twice at once.
     */
    predicate Valid()
      reads this, registry.Values, running
    {
      && (forall id :: id in registry ==> registry[id].identifier == id)
      && (forall i :: 0 <= i < |running| ==> running[i].state == Active)
      && (forall i, j :: 0 <= i < j < |running| ==> running[i] != running[j])
      && (forall id :: id in registry && registry[id].state == Active ==> registry[id] in running)
    }

    constructor (workerPoolSize: int)
      ensures Valid()
      ensures registry == map[] && running == [] && this.workerPoolSize == workerPoolSize
    {
      registry := map[];
      running := [];
      this.workerPoolSize := workerPoolSize;
    }

    /** `register_task`: a fresh PENDING task replaces whatever was registered under `taskId`, even an ACTIVE one. */
    method RegisterTask(taskId: string, scraperType: string, pages: int) returns (task: ScraperTask<V>)
      requires Valid()
      modifies this
      ensures Valid()
      ensures fresh(task)
      ensures task.identifier == taskId && task.scraperType == scraperType && task.pageLimit == pages
      ensures task.state == Pending && task.resultData == map[] && task.itemCount == 0
      ensures task.completedAt == None && task.errorInfo == None
      ensures registry == old(registry)[taskId := task] && running == old(running)
    {
      task := new ScraperTask(taskId, scraperType, pages);
      registry := registry[taskId := task];
    }

    /**
     * `execute_task`: an unknown id is an error and an ACTIVE task is not
     * started again; otherwise the task becomes ACTIVE and is submitted,
     * keeping its old data, count, timestamp and error.
     */
    method ExecuteTask(taskId: string) returns (r: Result<bool, string>)
      requires Valid()
      modifies this, registry.Values
      ensures Valid()
      ensures registry == old(registry)
      ensures taskId !in registry ==> r == Failure("Unknown task: " + taskId) && running == old(running)
      ensures taskId in registry && old(registry[taskId].state) == Active ==>
        r == Success(false) && running == old(running) && unchanged(registry[taskId])
      ensures taskId in registry && old(registry[taskId].state) != Active ==>
        var task := registry[taskId];
        && r == Success(true) && task.state == Active && running == old(running) + [task]
        && task.resultData == old(task.resultData) && task.itemCount == old(task.itemCount)
        && task.completedAt == old(task.completedAt) && task.errorInfo == old(task.errorInfo)
      ensures forall id :: id in registry && (taskId !in registry || registry[id] != registry[taskId]) ==> unchanged(registry[id])
    {
      if taskId !in registry {
        return Failure("Unknown task: " + taskId);
      }
      var task := registry[taskId];
      if task.state == Active {
        return Success(false);
      }
      task.state := Active;
      running := running + [task];
      return Success(true);
    }

    /**
     * `_perform_scrape` of the submitted task `k`: a collected dict is stored
     * with its size, FINISHED and the time `now`; an exception gives FAILED
     * and its message and leaves the old data and count.
     */
    method PerformScrape(k: nat, outcome: ScrapeOutcome<V>, now: string)
      requires Valid() && k < |running|
      modifies this, running[k]
      ensures Valid()
      ensures registry == old(registry)
      ensures running == old(running[..k] + running[k + 1..])
      ensures var task := old(running[k]);
        match outcome
        case Collected(data) =>
          && task.resultData == data && task.itemCount == |data| && task.state == Finished
          && task.completedAt == Some(now) && task.errorInfo == old(task.errorInfo)
        case Raised(message) =>
          && task.state == Failed && task.errorInfo == Some(message)
          && task.resultData == old(task.resultData) && task.itemCount == old(task.itemCount)
          && task.completedAt == old(task.completedAt)
    {
      var task := running[k];
      ghost var before := running;
      running := running[..k] + running[k + 1..];
      assert forall i :: 0 <= i < |running| ==> running[i] == before[if i < k then i else i + 1];
      assert forall i :: 0 <= i < |running| ==> running[i] != task;
      match outcome {
        case Collected(data) =>
          task.resultData, task.itemCount, task.state, task.completedAt := data, |data|, Finished, Some(now);
        case Raised(message) =>
          task.state, task.errorInfo := Failed, Some(message);
      }
    }

    /** `get_task_info`: None for an unknown id, else the task's state, count, timestamp and error. */
    function GetTaskInfo(taskId: string): (r: Option<TaskInfo>)
      reads this, registry.Values
      ensures r.None? <==> taskId !in registry
      ensures r.Some? ==> var task := registry[taskId];
        r.value == TaskInfo(task.state.Value(), task.itemCount, task.completedAt, task.errorInfo)
    {
      if taskId !in registry then None
      else
        var task := registry[taskId];
        Some(TaskInfo(task.state.Value(), task.itemCount, task.completedAt, task.errorInfo))
    }

    /** `get_all_status`: one snapshot per registered id, and no other key. */
    function GetAllStatus(): (m: map<string, TaskInfo>)
      reads this, registry.Values
      ensures m.Keys == registry.Keys
      ensures forall id :: id in m ==> GetTaskInfo(id) == Some(m[id])
    {
      map id | id in registry :: GetTaskInfo(id).value
    }

    /** `retrieve_data`: the task's collected dict, or an empty one for an unknown id. */
    function RetrieveData(taskId: string): (d: map<string, V>)
      reads this, registry.Values
      ensures taskId !in registry ==> d == map[]
      ensures taskId in registry ==> d == registry[taskId].resultData
    {
      if taskId !in registry then map[] else registry[taskId].resultData
    }
  }

  /** Two registered tasks are both reported "pending", and nothing else is reported. */
  method RegisteredTasksArePending() returns (status: map<string, TaskInfo>)
    ensures status.Keys == {"test_wd", "test_pw"}
    ensures status["test_wd"].state == "pending" && status["test_pw"].state == "pending"
    ensures status["test_wd"].items == 0 && status["test_wd"].timestamp == None && status["test_wd"].error == None
  {
    var coordinator := new ScraperCoordinator<int>(2);
    var wd := coordinator.RegisterTask("test_wd", "WeadownScraper", 1);
    var pw := coordinator.RegisterTask("test_pw", "PluginswpScraper", 1);
    status := coordinator.GetAllStatus();
  }

  /** A running task is not started twice, and an unknown id is an error. */
  method ExecuteTwice() returns (first: Result<bool, string>, second: Result<bool, string>, unknown: Result<bool, string>)
    ensures first == Success(true) && second == Success(false)
    ensures unknown == Failure("Unknown task: other")
  {
    var coordinator := new ScraperCoordinator<int>(4);
    var task := coordinator.RegisterTask("plugins", "WeadownScraper", 5);
    first := coordinator.ExecuteTask("plugins");
    second := coordinator.ExecuteTask("plugins");
    assert coordinator.registry.Keys == {"plugins"};
    unknown := coordinator.ExecuteTask("other");
    assert "Unknown task: " + "other" == "Unknown task: other";
  }

  /** A failed task can be started again, and then still shows its old error. */
  method RestartAfterFailure() returns (failed: Option<TaskInfo>, restarted: Option<TaskInfo>)
    ensures failed == Some(TaskInfo("failed", 0, None, Some("timeout")))
    ensures restarted == Some(TaskInfo("active", 0, None, Some("timeout")))
  {
    var coordinator := new ScraperCoordinator<int>(4);
    var task := coordinator.RegisterTask("plugins", "WeadownScraper", 5);
    var started := coordinator.ExecuteTask("plugins");
    coordinator.PerformScrape(0, Raised("timeout"), "2026-01-01T00:00:00");
    failed := coordinator.GetTaskInfo("plugins");
    started := coordinator.ExecuteTask("plugins");
    restarted := coordinator.GetTaskInfo("plugins");
  }

  /** The dict a scraper collects in `FinishedTaskReportsItems`. */
  const Collected2: map<string, int> := map["a" := 1, "b" := 2]

  lemma Collected2Size()
    ensures |Collected2| == 2
  {
    assert Collected2.Keys == {"a"} + {"b"};
  }

  /** A finished task reports the size of its data and the completion time. */
  method FinishedTaskReportsItems() returns (info: Option<TaskInfo>, data: map<string, int>)
    ensures info == Some(TaskInfo("finished", 2, Some("2026-01-01T00:00:00"), None))
    ensures data == map["a" := 1, "b" := 2]
  {
    var coordinator := new ScraperCoordinator<int>(4);
    var task := coordinator.RegisterTask("plugins", "WeadownScraper", 5);
    var started := coordinator.ExecuteTask("plugins");
    assert coordinator.running == [task];
    coordinator.PerformScrape(0, Collected(Collected2), "2026-01-01T00:00:00");
    assert task.itemCount == |Collected2| && task.state == Finished;
    Collected2Size();
    info := coordinator.GetTaskInfo("plugins");
    data := coordinator.RetrieveData("plugins");
  }
}
