/** How the shell connects the stages of a pipeline: pipes, forks, descriptor tables and
    redirections. */
module PipelineWiring {
  import opened Basics
  import opened CommandParser

  /** What a descriptor refers to: one end of the k-th pipe, a file opened for a redirection, or
      something opened earlier. */
  datatype End =
    | ReadEnd(k: nat)
    | WriteEnd(k: nat)
    | InFile(path: string)
    | OutFile(path: string, append: bool)
    | Other(id: nat)

  type Table = map<nat, End>

  /** A started stage as it is when its command is executed. */
  datatype Process = Process(argv: seq<string>, table: Table)

  const STDIN: nat := 0
  const STDOUT: nat := 1

  function Close(t: Table, fd: nat): Table {
    t - {fd}
  }

  function Dup2(t: Table, from: nat, to: nat): Table {
    if from in t then t[to := t[from]] else t
  }

  ghost predicate Standard(t: Table) {
    STDIN in t && STDOUT in t
  }

  ghost predicate HoldsNoPipe(t: Table) {
    forall fd :: fd in t ==> !t[fd].ReadEnd? && !t[fd].WriteEnd?
  }

  // ---------- the table a stage is meant to have ----------

  /** Stage k of n has its neighbours' pipes as standard input and output, and otherwise what
      the shell has. */
  ghost function Wired(t: Table, base: nat, k: nat, n: nat): (r: Table)
    requires Standard(t)
    ensures Standard(r)
  {
    t[STDIN := if k > 0 then ReadEnd(base + k - 1) else t[STDIN]]
     [STDOUT := if k < n - 1 then WriteEnd(base + k) else t[STDOUT]]
  }

  /** What a command gets: its words, and the files used instead of the pipes. */
  datatype Stage = Stage(argv: seq<string>, files: Redirection)

  /** The named files, as far as they can be opened. */
  ghost function StageFrom(argv: seq<string>, r: Redirection, opens: End -> bool): Stage {
    var input := r.infile.Some? && opens(InFile(r.infile.value));
    var output := r.outfile.Some? && opens(OutFile(r.outfile.value, r.append));
    Stage(argv, Redirection(if input then r.infile else None, if output then r.outfile else None, r.append))
  }

  /** The words before the first operator, and the files of the last operators. */
  ghost function StageOf(command: string, opens: End -> bool): Stage {
    StageFrom(BeforeOperators(Argv(command)), RedirectionOf(command), opens)
  }

  /** A file takes the place of the pipe. */
  ghost function Redirected(t: Table, r: Redirection): Table
    requires Standard(t)
  {
    t[STDIN := if r.infile.Some? then InFile(r.infile.value) else t[STDIN]]
     [STDOUT := if r.outfile.Some? then OutFile(r.outfile.value, r.append) else t[STDOUT]]
  }

  ghost function Started(t: Table, base: nat, st: Stage, k: nat, n: nat): Process
    requires Standard(t)
  {
    Process(st.argv, Redirected(Wired(t, base, k, n), st.files))
  }

  ghost function Launched(t: Table, base: nat, stages: seq<Stage>): (ps: seq<Process>)
    requires Standard(t)
    ensures |ps| == |stages|
    ensures forall k :: 0 <= k < |ps| ==> ps[k] == Started(t, base, stages[k], k, |stages|)
  {
    seq(|stages|, k requires 0 <= k < |stages| => Started(t, base, stages[k], k, |stages|))
  }

  class Shell {
    var table: Table
    /** The stages started so far. */
    var children: seq<Process>
    /** Number of pipes ever made. */
    var pipes: nat
    /** The environment: whether the stage with this number can open a file. */
    const opens: nat -> End -> bool
    /** What a command asks for as stage number p. */
    ghost const asks: (string, nat) -> Stage

    /** The stages are what the parser makes of the commands. */
    ghost predicate Valid() {
      forall c: string, p: nat :: AsksAsParsed(c, p)
    }

    ghost predicate AsksAsParsed(c: string, p: nat) {
      asks(c, p) == StageOf(c, opens(p))
    }

    constructor (table: Table, opens: nat -> End -> bool)
      ensures this.table == table && children == [] && pipes == 0 && this.opens == opens && Valid()
    {
      this.table, children, pipes := table, [], 0;
      this.opens := opens;
      asks := (c: string, p: nat) => StageOf(c, opens(p));
    }

    /** What the commands of a line ask for, the first being stage number `first`. */
    ghost function StagesOf(commands: seq<string>, first: nat): (stages: seq<Stage>)
      ensures |stages| == |commands|
      ensures forall k :: 0 <= k < |stages| ==> stages[k] == asks(commands[k], first + k)
    {
      seq(|commands|, k requires 0 <= k < |commands| => asks(commands[k], first + k))
    }

    /** The lowest descriptor not in use. */
    method FreeFd(t: Table) returns (fd: nat)
      ensures fd !in t && forall f :: 0 <= f < fd ==> f in t
    {
      fd := 0;
      ghost var higher := t.Keys;
      while fd in t
        invariant forall f :: 0 <= f < fd ==> f in t
        invariant forall f :: f in t && f >= fd ==> f in higher
        decreases higher
      {
        higher := higher - {fd};
        fd := fd + 1;
      }
    }

    method Pipe() returns (r: nat, w: nat)
      modifies `table, `pipes
      ensures r !in old(table) && w !in old(table) && r != w
      ensures table == old(table)[r := ReadEnd(old(pipes))][w := WriteEnd(old(pipes))]
      ensures pipes == old(pipes) + 1
    {
      r := FreeFd(table);
      table := table[r := ReadEnd(pipes)];
      w := FreeFd(table);
      table := table[w := WriteEnd(pipes)];
      pipes := pipes + 1;
    }

    /** The child's first half, on its copy of the table: dup2 and close.  `r` and `w` are -1 for
        the last stage, `prevFd` is -1 for the first. */
    method ConnectPipes(t: Table, prevFd: int, r: int, w: int,
                        ghost t0: Table, ghost before: End, ghost next: End, ghost after: End)
      returns (child: Table)
      requires Standard(t0) && (prevFd >= 0 ==> prevFd !in t0) && prevFd >= -1
      requires if w >= 0 then r >= 0 && r !in t0 && w !in t0 && r != w && r != prevFd && w != prevFd else r < 0
      requires var t1 := if prevFd >= 0 then t0[prevFd := before] else t0;
               t == if w >= 0 then t1[r := next][w := after] else t1
      ensures child == t0[STDIN := if prevFd >= 0 then before else t0[STDIN]]
                         [STDOUT := if w >= 0 then after else t0[STDOUT]]
    {
      child := t;
      if prevFd != -1 {
        child := Dup2(child, prevFd, STDIN);
        child := Close(child, prevFd);
      }
      if w >= 0 {
        child := Dup2(child, w, STDOUT);
        child := Close(child, r);
        child := Close(child, w);
      }
    }

    /** open, dup2, close; a file that cannot be opened leaves the descriptor as it is. */
    method Redirect(t: Table, file: End, to: nat, can: bool) returns (child: Table)
      requires to in t
      ensures child == if can then t[to := file] else t
    {
      child := t;
      if can {
        var fd := FreeFd(t);
        child := child[fd := file];
        child := Dup2(child, fd, to);
        child := Close(child, fd);
      }
    }

    /** The child's second half: its words and its redirections. */
    method Become(t: Table, command: string, stage: nat) returns (p: Process)
      requires Valid() && Standard(t)
      ensures p == Process(asks(command, stage).argv, Redirected(t, asks(command, stage).files))
    {
      var argv, r := PrepareCommand(command);
      assert AsksAsParsed(command, stage);
      var child := UseFiles(t, argv, r, stage);
      p := Process(argv, child);
    }

    method UseFiles(t: Table, argv: seq<string>, r: Redirection, stage: nat) returns (child: Table)
      requires Standard(t)
      ensures child == Redirected(t, StageFrom(argv, r, opens(stage)).files)
    {
      child := t;
      if r.infile.Some? {
        var file := InFile(r.infile.value);
        child := Redirect(child, file, STDIN, opens(stage)(file));
      }
      if r.outfile.Some? {
        var file := OutFile(r.outfile.value, r.append);
        child := Redirect(child, file, STDOUT, opens(stage)(file));
      }
    }

    /** The shell between two turns of the launch loop, after i of n stages: of all the pipes it
        has only the read end of the last one open. */
    ghost predicate Between(t0: Table, base: nat, i: nat, n: nat, prevFd: int)
      reads this
    {
      && (if 0 < i < n then prevFd >= 0 && prevFd !in t0 && table == t0[prevFd := ReadEnd(base + i - 1)]
          else table == t0 && (i == 0 ==> prevFd == -1))
      && pipes == base + if i < n then i else if n == 0 then 0 else n - 1
    }

    /** One turn: pipe, fork, and the parent's closes. */
    method StartStage(command: string, i: nat, n: nat, prevFd: int, ghost t0: Table, ghost base: nat)
      returns (next: int)
      requires Valid() && Standard(t0) && i < n && Between(t0, base, i, n, prevFd)
      modifies this
      ensures Between(t0, base, i + 1, n, next)
      ensures children == old(children) + [Started(t0, base, asks(command, |old(children)|), i, n)]
    {
      var r: int, w: int := -1, -1;
      if i < n - 1 {
        r, w := Pipe();
      }
      var child := ConnectPipes(table, prevFd, r, w, t0, if i > 0 then ReadEnd(base + i - 1) else t0[STDIN],
                                ReadEnd(base + i), WriteEnd(base + i));
      assert child == Wired(t0, base, i, n);
      next := CloseInParent(prevFd, r, w);
      var p := Become(child, command, |children|);
      children := children + [p];
    }

    /** The parent keeps only the read end of the new pipe. */
    method CloseInParent(prevFd: int, r: int, w: int) returns (next: int)
      requires prevFd >= -1 && (w >= 0 ==> r >= 0)
      modifies `table
      ensures table == old(table) - (if prevFd >= 0 then {prevFd} else {}) - (if w >= 0 then {w} else {})
      ensures next == if w >= 0 then r else prevFd
    {
      next := prevFd;
      if prevFd != -1 {
        table := Close(table, prevFd);
      }
      if w >= 0 {
        table := Close(table, w);
        next := r;
      }
    }

    /** Launches the stages of one line, each with its own copy of the table. */
    method ExecutePipeline(commands: seq<string>)
      requires Valid() && Standard(table)
      modifies this
      ensures table == old(table)
      ensures pipes == old(pipes) + if commands == [] then 0 else |commands| - 1
      ensures children ==
              old(children) + Launched(table, old(pipes), StagesOf(commands, |old(children)|))
    {
      ghost var ps := Launched(table, pipes, StagesOf(commands, |children|));
      var prevFd: int := -1;
      var i := 0;
      while i < |commands|
        invariant 0 <= i <= |commands| && children == old(children) + ps[..i]
        invariant Between(old(table), old(pipes), i, |commands|, prevFd)
      {
        prevFd := StartStage(commands[i], i, |commands|, prevFd, old(table), old(pipes));
        OneMore(old(children), ps, i);
        i := i + 1;
      }
      assert ps[..i] == ps;
    }
  }

  lemma OneMore(before: seq<Process>, ps: seq<Process>, i: nat)
    requires i < |ps|
    ensures before + ps[..i] + [ps[i]] == before + ps[..i + 1]
    ensures |before + ps[..i]| == |before| + i
  {
  }

  // ---------- consequences ----------

  /** Which processes hold a given end, and as which descriptor. */
  ghost function Holders(ps: seq<Process>, e: End): set<(nat, nat)> {
    set p, fd | 0 <= p < |ps| && fd in ps[p].table && ps[p].table[fd] == e :: (p, fd)
  }

  /** Of all the stages, only stage k holds the write end of pipe k, and only as its standard
      output, unless it writes to a file instead; only stage k + 1 holds the read end, and only
      as its standard input, unless it reads from a file.  So a reader sees end of file as soon
      as the stage before it is gone. */
  lemma PipeEndsHeldOnce(t: Table, base: nat, stages: seq<Stage>, k: nat)
    requires Standard(t) && HoldsNoPipe(t) && k < |stages| - 1
    ensures var ps := Launched(t, base, stages);
            && Holders(ps, WriteEnd(base + k)) == (if stages[k].files.outfile.Some? then {} else {(k, STDOUT)})
            && Holders(ps, ReadEnd(base + k)) == (if stages[k + 1].files.infile.Some? then {} else {(k + 1, STDIN)})
  {
    var ps := Launched(t, base, stages);
    forall p, fd | 0 <= p < |ps| && fd in ps[p].table
      ensures ps[p].table[fd] == WriteEnd(base + k) <==> (p, fd) == (k, STDOUT) && stages[k].files.outfile.None?
      ensures ps[p].table[fd] == ReadEnd(base + k) <==> (p, fd) == (k + 1, STDIN) && stages[k + 1].files.infile.None?
    {
      assert ps[p] == Started(t, base, stages[p], p, |stages|);
    }
    assert STDOUT in ps[k].table && STDIN in ps[k + 1].table;
  }

  /** Descriptors 0 and 1 of a stage are its files where it has any, else the pipes to its
      neighbours, else the shell's; all others are the shell's. */
  lemma StageDescriptors(t: Table, base: nat, stages: seq<Stage>, k: nat)
    requires Standard(t) && k < |stages|
    ensures var p, files := Launched(t, base, stages)[k], stages[k].files;
            && p.argv == stages[k].argv && p.table.Keys == t.Keys
            && p.table[0] == (if files.infile.Some? then InFile(files.infile.value)
                              else if k > 0 then ReadEnd(base + k - 1) else t[0])
            && p.table[1] == (if files.outfile.Some? then OutFile(files.outfile.value, files.append)
                              else if k + 1 < |stages| then WriteEnd(base + k) else t[1])
            && forall fd :: fd in t && fd != 0 && fd != 1 ==> p.table[fd] == t[fd]
  {
    assert Launched(t, base, stages)[k] == Started(t, base, stages[k], k, |stages|);
  }

  /** `sort < in >> out`, or with `>`: the command sees its own words only, reads the one file and
      writes the other, from the start or at its end; a file that cannot be opened is left out. */
  lemma RedirectedCommand(command: string, ws: seq<string>, i: string, o: string, op: string, opens: End -> bool)
    requires (forall w :: w in ws ==> !IsOperator(w)) && !IsOperator(i) && !IsOperator(o) && (op == ">" || op == ">>")
    requires Argv(command) == ws + ["<", i, op, o]
    ensures StageOf(command, opens) ==
            Stage(ws, Redirection(if opens(InFile(i)) then Some(i) else None,
                                  if opens(OutFile(o, op == ">>")) then Some(o) else None, op == ">>"))
  {
    BothRedirected(ws, i, o, op);
  }
}
