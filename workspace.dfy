/** The world a CLI command runs in: the project's files (path -> text), the answers the
    user will give to yes/no prompts, in order, and what the command reports. A `World` is
    the value of that state; a `Project` holds it in fields and changes it in place. */
module Workspace {
  import opened Packages

  /** What a command reports. Colours and wording are not modelled, only the facts. */
  datatype Event =
    | Created(path: string)            // a file was written; the path as the CLI prints it
    | Skipped(fileName: string)        // the user declined to overwrite an existing file
    | SkippedExisting(fileName: string) // an existing file kept because of `--yes`
    | MissingLib(key: string)          // a `lib/...` dependency not present under libDir
    | Installed(run: InstallRun)       // the package manager step
    | Updated(path: string)            // an existing config file was edited
    | AlreadyConfigured(path: string)  // a config file that needed no edit
    | AppConfigNotFound                // no referenced tsconfig includes the sources

  /** How a command ended: it returned normally, the process exited with a code, or an
      uncaught error ended it. */
  datatype Outcome = Done | Exit(code: int) | Crash(failure: Failure)

  datatype Failure = MalformedConfig | RegistryUnavailable | FetchFailed(file: string)

  datatype World = World(files: map<string, string>, answers: seq<bool>, log: seq<Event>)

  /** Writing a file creates or replaces exactly that path. */
  function WriteFile(w: World, path: string, content: string): (r: World)
    ensures r.files.Keys == w.files.Keys + {path} && r.files[path] == content
    ensures forall q :: q in w.files && q != path ==> r.files[q] == w.files[q]
    ensures r.answers == w.answers && r.log == w.log
  {
    w.(files := w.files[path := content])
  }

  /** A confirm prompt takes the next scripted answer; once the script is exhausted the
      prompt counts as cancelled, which the CLI treats as "no". */
  function Ask(w: World): (r: (bool, World))
    ensures r.1.files == w.files && r.1.log == w.log
    ensures |w.answers| == 0 ==> r == (false, w)
    ensures |w.answers| > 0 ==> r.0 == w.answers[0] && r.1.answers == w.answers[1..]
  {
    if |w.answers| == 0 then (false, w) else (w.answers[0], w.(answers := w.answers[1..]))
  }

  /** Reporting appends one event and touches nothing else. */
  function Emit(w: World, e: Event): (r: World)
    ensures r.log == w.log + [e] && r.files == w.files && r.answers == w.answers
  {
    w.(log := w.log + [e])
  }

  /** The files, the prompt script and the log of one run. */
  class Project {
    var files: map<string, string>
    var answers: seq<bool>
    var log: seq<Event>

    constructor (w: World)
      ensures State() == w
    {
      files, answers, log := w.files, w.answers, w.log;
    }

    function State(): World
      reads this
    {
      World(files, answers, log)
    }

    /** fs.writeFileSync */
    method Write(path: string, content: string)
      modifies this
      ensures State() == WriteFile(old(State()), path, content)
    {
      files := files[path := content];
    }

    /** A confirm prompt. */
    method Confirm() returns (yes: bool)
      modifies this
      ensures (yes, State()) == Ask(old(State()))
    {
      if |answers| == 0 {
        yes := false;
      } else {
        yes := answers[0];
        answers := answers[1..];
      }
    }

    /** console.log of one fact. */
    method Report(e: Event)
      modifies this
      ensures State() == Emit(old(State()), e)
    {
      log := log + [e];
    }
  }
}
