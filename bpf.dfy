/**
 * The BPF library as seen from the filesystem: every call into it is an
 * uninterpreted function of a `Kernel` record, so the model says nothing
 * about what the compiler or the kernel decide, only what the filesystem
 * does with each answer.
 */
module Bpf {
  import opened Wrappers

  type Bytes = seq<bv8>

  /**
   * A compiled module (`void *bpf_module_`): an opaque handle plus what
   * `bpf_num_functions`/`bpf_function_name` and `bpf_num_tables`/
   * `bpf_table_name` report about it.
   */
  datatype Module = Module(handle: nat, functions: seq<string>, tables: seq<string>)

  /** The program types `FunctionDir::load` can request. */
  datatype ProgType = SocketFilter | Kprobe | SchedCls | SchedAct

  /** The keyword written to a function's `type` file for each program type. */
  function Keyword(t: ProgType): string {
    match t
    case SocketFilter => "filter"
    case Kprobe => "kprobe"
    case SchedCls => "sched_cls"
    case SchedAct => "sched_act"
  }

  /**
   * The if-chain of `FunctionDir::load`: an exact keyword selects a
   * program type; anything else (including a trailing newline) is refused.
   */
  function ProgTypeOf(s: string): (r: Option<ProgType>)
    ensures r.Some? <==> s in {"filter", "kprobe", "sched_cls", "sched_act"}
  {
    if s == "filter" then Some(SocketFilter)
    else if s == "kprobe" then Some(Kprobe)
    else if s == "sched_cls" then Some(SchedCls)
    else if s == "sched_act" then Some(SchedAct)
    else None
  }

  /** Each keyword selects its own type, and only the keyword does. */
  lemma KeywordRoundTrip(t: ProgType, s: string)
    ensures ProgTypeOf(Keyword(t)) == Some(t)
    ensures ProgTypeOf(s) == Some(t) ==> s == Keyword(t)
  {
  }

  /**
   * The library and kernel calls the filesystem makes, as oracles.
   * A negative fd from `progLoad` is a failed `bpf_prog_load`, with
   * `progLog` the verifier log left in the log buffer.
   */
  datatype Kernel = Kernel(
    /** bpf_module_create_c_from_string(text, 0); None for a null module. */
    compileC: string -> Option<Module>,
    /** bpf_module_create_from_string(text, flags), used by the older tree. */
    compileB: (string, bv32) -> Option<Module>,
    /** bpf_prog_load of function `id` of a module with a program type. */
    progLoad: (Module, nat, ProgType) -> int,
    progLog: (Module, nat, ProgType) -> string,
    /** bpf_table_fd_id. */
    tableFd: (Module, nat) -> int,
    /** The keys successive bpf_get_next_key calls yield from a zeroed key, in order. */
    keys: int -> seq<Bytes>,
    /** bpf_lookup_elem; None when it fails. */
    lookup: (int, Bytes) -> Option<Bytes>,
    /** bpf_update_elem and bpf_delete_elem; true when they return 0. */
    update: (int, Bytes, Bytes) -> bool,
    delete: (int, Bytes) -> bool,
    /** bpf_table_{key,leaf}_{snprintf,sscanf}; None when they report an error. */
    keyPrint: (Module, nat, Bytes) -> Option<string>,
    keyScan: (Module, nat, string) -> Option<Bytes>,
    leafPrint: (Module, nat, Bytes) -> Option<string>,
    leafScan: (Module, nat, string) -> Option<Bytes>
  )
}
