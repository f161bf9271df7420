/** run_root_helper of ubuntu-hello/src/pam/main.cc: a helper process, the pipes to and from it,
    and what becomes of the descriptors. What the system calls answer is the World's choice. */
module RootHelper {
  import opened Options
  import opened Text

  // ----------------------------------------------------------------- the kernel

  /** The process's descriptors. A number may be handed out again once it is closed, so closing one
      that is not open is what must not happen: another thread may own it by then. */
  class Kernel {
    var table: set<int>
    ghost var everOpened: multiset<int>
    ghost var everClosed: multiset<int>

    /** Every descriptor opened is open or was closed, as often as it was opened. */
    ghost predicate Valid()
      reads this
    {
      && everOpened == everClosed + multiset(table)
      && forall fd :: fd in table ==> fd >= 0
    }

    method Pipe2(r: int, w: int)
      requires Valid() && 0 <= r && 0 <= w && r != w && r !in table && w !in table
      modifies this
      ensures Valid() && table == old(table) + {r, w}
      ensures everOpened == old(everOpened) + multiset{r, w}
    {
      table := table + {r, w};
      everOpened := everOpened + multiset{r, w};
    }

    method Close(fd: int)
      requires Valid() && fd in table
      modifies this
      ensures Valid() && table == old(table) - {fd}
      ensures everClosed == old(everClosed) + multiset{fd} && everOpened == old(everOpened)
    {
      table := table - {fd};
      everClosed := everClosed + multiset{fd};
    }
  }

  // ------------------------------------------------------------ descriptor fields

  function Held(fds: seq<int>): set<int>
  {
    set fd | fd in fds && fd >= 0
  }

  /** The fields name different descriptors, all open, and the others are the base. */
  ghost predicate Owns(fds: seq<int>, table: set<int>, base: set<int>)
  {
    && (forall i, j :: 0 <= i < j < |fds| && fds[i] >= 0 ==> fds[i] != fds[j])
    && table == base + Held(fds)
    && base !! Held(fds)
  }

  function Emptied(fds: seq<int>, k: nat): (left: seq<int>)
    requires k < |fds|
    ensures |left| == |fds| && left[k] < 0
    ensures forall j :: 0 <= j < |fds| && j != k ==> left[j] == fds[j]
  {
    if fds[k] >= 0 then fds[k := -1] else fds
  }

  lemma OwnsAfterClose(fds: seq<int>, table: set<int>, base: set<int>, k: nat)
    requires Owns(fds, table, base) && k < |fds|
    ensures Owns(Emptied(fds, k), if fds[k] >= 0 then table - {fds[k]} else table, base)
  {
    if fds[k] >= 0 {
      var less := fds[k := -1];
      assert forall j :: 0 <= j < |fds| && j != k ==> less[j] == fds[j];
      forall fd | fd in Held(fds) && fd != fds[k]
        ensures fd in less
      {
        var j :| 0 <= j < |fds| && fds[j] == fd;
        assert less[j] == fd;
      }
      assert Held(less) == Held(fds) - {fds[k]};
    }
  }

  lemma OwnsNothing(fds: seq<int>, table: set<int>, base: set<int>)
    requires Owns(fds, table, base) && forall i :: 0 <= i < |fds| ==> fds[i] < 0
    ensures table == base
  {
    assert Held(fds) == {};
  }

  lemma HeldIsOpen(fds: seq<int>, table: set<int>, base: set<int>, k: nat)
    requires Owns(fds, table, base) && k < |fds| && fds[k] >= 0
    ensures fds[k] in table
  {
    assert fds[k] in Held(fds);
  }

  lemma OwnsAfterOpen(fds: seq<int>, table: set<int>, base: set<int>, k: nat, r: int, w: int)
    requires Owns(fds, table, base) && k + 1 < |fds| && fds[k] < 0 && fds[k + 1] < 0
    requires 0 <= r && 0 <= w && r != w && r !in table && w !in table
    ensures Owns(fds[k := r][k + 1 := w], table + {r, w}, base)
  {
    var more := fds[k := r][k + 1 := w];
    assert more[k] == r && more[k + 1] == w;
    assert forall j :: 0 <= j < |fds| && j != k && j != k + 1 ==> more[j] == fds[j];
    forall fd | fd in Held(fds)
      ensures fd in more
    {
      var j :| 0 <= j < |fds| && fds[j] == fd;
      assert more[j] == fd;
    }
    assert Held(more) == Held(fds) + {r, w};
    forall i, j | 0 <= i < j < |more| && more[i] >= 0
      ensures more[i] != more[j]
    {
      assert more[i] in {r, w} || more[i] in Held(fds);
      assert more[j] in {r, w} || more[j] < 0 || more[j] in Held(fds);
    }
  }

  lemma OwnsNone(table: set<int>)
    ensures Owns([-1, -1, -1, -1], table, table)
  {
    assert Held([-1, -1, -1, -1]) == {};
  }

  // HelperPipes: the two pairs of descriptors in a row; a negative entry is not in use.
  const IN_READ := 0
  const IN_WRITE := 1
  const OUT_READ := 2
  const OUT_WRITE := 3

  /** close_fd. */
  method CloseFd(pipes: array<int>, k: nat, kernel: Kernel, ghost base: set<int>)
    requires k < pipes.Length && kernel.Valid() && Owns(pipes[..], kernel.table, base)
    modifies pipes, kernel
    ensures kernel.Valid() && kernel.everOpened == old(kernel.everOpened)
    ensures pipes[..] == Emptied(old(pipes[..]), k) && Owns(pipes[..], kernel.table, base)
  {
    hide Owns, Kernel.Valid;
    OwnsAfterClose(pipes[..], kernel.table, base, k);
    if pipes[k] >= 0 {
      HeldIsOpen(pipes[..], kernel.table, base, k);
      kernel.Close(pipes[k]);
      pipes[k] := -1;
    }
  }

  /** HelperPipes::close_all. */
  method CloseAll(pipes: array<int>, kernel: Kernel, ghost base: set<int>)
    requires kernel.Valid() && Owns(pipes[..], kernel.table, base)
    modifies pipes, kernel
    ensures kernel.Valid() && kernel.table == base && kernel.everOpened == old(kernel.everOpened)
  {
    hide Owns, Kernel.Valid;
    for k := 0 to pipes.Length
      invariant kernel.Valid() && Owns(pipes[..], kernel.table, base) && kernel.everOpened == old(kernel.everOpened)
      invariant forall i :: 0 <= i < k ==> pipes[..][i] < 0
    {
      CloseFd(pipes, k, kernel, base);
    }
    OwnsNothing(pipes[..], kernel.table, base);
  }

  // -------------------------------------------------------- what the world answers

  datatype PipeReply = PipeFails | PipeGives(r: int, w: int)

  /** One poll of the helper: what waitpid answered, and whether the deadline had passed. */
  datatype Poll = Poll(waited: int, status: int, late: bool)

  datatype World = World(
    stdinReply: PipeReply, stdoutReply: PipeReply, spawnError: int, restoreFailed: bool,
    fdopenWorks: bool, chunks: seq<string>, polls: seq<Poll>)

  function Ends(reply: PipeReply): set<int>
  {
    if reply.PipeGives? then {reply.r, reply.w} else {}
  }

  /** The kernel hands out two numbers that are not in use. */
  predicate GivesFree(reply: PipeReply, table: set<int>)
  {
    reply.PipeGives? ==> 0 <= reply.r && 0 <= reply.w && reply.r != reply.w && reply.r !in table && reply.w !in table
  }

  predicate Conclusive(p: Poll)
  {
    p.waited != 0 || p.late
  }

  /** read_chunk gives at most a buffer of 256 bytes, and the deadline comes. */
  predicate Sane(world: World, table: set<int>, wantIn: bool)
  {
    && GivesFree(world.stdinReply, table)
    && GivesFree(world.stdoutReply, table + InEnds(world, wantIn))
    && (forall i :: 0 <= i < |world.chunks| ==> 0 < |world.chunks[i]| <= 256)
    && world.polls != [] && Conclusive(world.polls[|world.polls| - 1])
  }

  predicate PipesWork(world: World, wantIn: bool, wantOut: bool)
  {
    (wantIn ==> world.stdinReply.PipeGives?) && (wantOut ==> world.stdoutReply.PipeGives?)
  }

  function InEnds(world: World, wantIn: bool): set<int>
  {
    if wantIn then Ends(world.stdinReply) else {}
  }

  /** The second pipe is not tried when the first failed. */
  function OutEnds(world: World, wantIn: bool, wantOut: bool): set<int>
  {
    if wantOut && (wantIn ==> world.stdinReply.PipeGives?) then Ends(world.stdoutReply) else {}
  }

  /** The ends a call opens. */
  function EndsOpened(world: World, wantIn: bool, wantOut: bool): set<int>
  {
    InEnds(world, wantIn) + OutEnds(world, wantIn, wantOut)
  }

  lemma BothOpened(world: World, wantIn: bool, wantOut: bool, table: set<int>)
    requires Sane(world, table, wantIn)
    ensures multiset(EndsOpened(world, wantIn, wantOut))
            == multiset(InEnds(world, wantIn)) + multiset(OutEnds(world, wantIn, wantOut))
  {
    Disjoint(InEnds(world, wantIn), OutEnds(world, wantIn, wantOut));
  }

  lemma Disjoint(a: set<int>, b: set<int>)
    requires a !! b
    ensures multiset(a + b) == multiset(a) + multiset(b)
  {
  }

  lemma Accounts(kernel: Kernel)
    requires kernel.Valid()
    ensures kernel.everOpened == kernel.everClosed + multiset(kernel.table)
  {
  }

  lemma Balanced(kernel: Kernel, opened0: multiset<int>, closed0: multiset<int>, ends: set<int>)
    requires kernel.Valid() && opened0 == closed0 + multiset(kernel.table) && kernel.everOpened == opened0 + multiset(ends)
    ensures kernel.everClosed == closed0 + multiset(ends)
  {
    Cancel(kernel.everClosed, closed0 + multiset(ends), multiset(kernel.table));
  }

  lemma Cancel(a: multiset<int>, b: multiset<int>, c: multiset<int>)
    requires a + c == b + c
    ensures a == b
  {
    assert a == a + c - c && b == b + c - c;
  }

  /** pipe2 into a pair of fields. */
  method OpenPair(pipes: array<int>, k: nat, reply: PipeReply, kernel: Kernel, ghost base: set<int>) returns (ok: bool)
    requires k + 1 < pipes.Length && pipes[k] < 0 && pipes[k + 1] < 0 && GivesFree(reply, kernel.table)
    requires kernel.Valid() && Owns(pipes[..], kernel.table, base)
    modifies pipes, kernel
    ensures kernel.Valid() && Owns(pipes[..], kernel.table, base) && kernel.table == old(kernel.table) + Ends(reply)
    ensures kernel.everOpened == old(kernel.everOpened) + multiset(Ends(reply))
    ensures ok == reply.PipeGives?
    ensures pipes[..] == if ok then old(pipes[..])[k := reply.r][k + 1 := reply.w] else old(pipes[..])
  {
    hide Owns, Kernel.Valid;
    if reply.PipeFails? {
      return false;
    }
    OwnsAfterOpen(pipes[..], kernel.table, base, k, reply.r, reply.w);
    kernel.Pipe2(reply.r, reply.w);
    pipes[k] := reply.r;
    pipes[k + 1] := reply.w;
    return true;
  }

  method OpenHelperPipes(wantIn: bool, wantOut: bool, pipes: array<int>, kernel: Kernel, world: World) returns (ok: bool)
    requires kernel.Valid() && pipes[..] == [-1, -1, -1, -1] && Sane(world, kernel.table, wantIn)
    modifies pipes, kernel
    ensures kernel.Valid() && ok == PipesWork(world, wantIn, wantOut)
    ensures kernel.everOpened == old(kernel.everOpened) + multiset(EndsOpened(world, wantIn, wantOut))
    ensures !ok ==> kernel.table == old(kernel.table)
    ensures ok ==> Owns(pipes[..], kernel.table, old(kernel.table))
    ensures ok ==> (wantIn <==> pipes[IN_WRITE] >= 0) && (wantOut <==> pipes[OUT_READ] >= 0)
  {
    hide Owns, Kernel.Valid, Ends, EndsOpened;
    ghost var base := kernel.table;
    ghost var opened0 := kernel.everOpened;
    OwnsNone(base);
    ok := true;
    if wantIn {
      ok := OpenPair(pipes, IN_READ, world.stdinReply, kernel, base);
    }
    assert kernel.everOpened == opened0 + multiset(InEnds(world, wantIn));
    assert pipes.Length == 4 && pipes[OUT_READ] < 0 && pipes[OUT_WRITE] < 0;
    ghost var opened1 := kernel.everOpened;
    if ok && wantOut {
      ok := OpenPair(pipes, OUT_READ, world.stdoutReply, kernel, base);
    }
    assert kernel.everOpened == opened1 + multiset(OutEnds(world, wantIn, wantOut));
    BothOpened(world, wantIn, wantOut, base);
    if !ok {
      CloseAll(pipes, kernel, base);
    }
  }

  // --------------------------------------------------- feeding, reading, waiting

  method FeedHelper(pipes: array<int>, input: string, kernel: Kernel, world: World, ghost base: set<int>)
      returns (fed: Option<string>)
    requires pipes.Length == 4 && pipes[IN_WRITE] >= 0
    requires kernel.Valid() && Owns(pipes[..], kernel.table, base)
    modifies pipes, kernel
    ensures kernel.Valid() && kernel.everOpened == old(kernel.everOpened)
    ensures pipes[..] == Emptied(old(pipes[..]), IN_WRITE) && Owns(pipes[..], kernel.table, base)
    ensures fed == if world.fdopenWorks then Some(input + "\n") else None
  {
    hide Owns, Kernel.Valid;
    if !world.fdopenWorks {
      CloseFd(pipes, IN_WRITE, kernel, base);
      return None;
    }
    OwnsAfterClose(pipes[..], kernel.table, base, IN_WRITE);
    HeldIsOpen(pipes[..], kernel.table, base, IN_WRITE);
    var inFile := pipes[IN_WRITE];
    pipes[IN_WRITE] := -1;
    fed := Some(input + "\n");
    kernel.Close(inFile);
  }

  function UpToNewline(s: string): string
  {
    if s == "" || s[0] == '\n' then "" else [s[0]] + UpToNewline(s[1..])
  }

  const LIMIT := 255

  function FirstLine(s: string): string
  {
    UpToNewline(if |s| > LIMIT then s[..LIMIT] else s)
  }

  lemma {:induction false} UpToNewlineMeans(s: string, line: string)
    ensures line == UpToNewline(s) <==>
              line <= s && '\n' !in line && (|line| < |s| ==> s[|line|] == '\n')
  {
    if s != "" && s[0] != '\n' && line != "" {
      UpToNewlineMeans(s[1..], line[1..]);
      assert line == [line[0]] + line[1..];
      assert line <= s <==> line[0] == s[0] && line[1..] <= s[1..];
    }
  }

  /** The first line: it holds no newline, is at most 255 long, and ends where the text does, at 255, or before a newline. */
  lemma FirstLineMeans(s: string, line: string)
    ensures line == FirstLine(s) <==>
              line <= s && '\n' !in line && |line| <= 255 && (|line| == |s| || |line| == 255 || s[|line|] == '\n')
  {
    var head := if |s| > LIMIT then s[..LIMIT] else s;
    UpToNewlineMeans(head, line);
    assert head <= s;
    if line <= s && |line| <= 255 {
      assert line <= head;
    }
  }

  method ReadHelper(pipes: array<int>, chunks: seq<string>, kernel: Kernel, ghost base: set<int>)
      returns (output: Option<string>)
    requires pipes.Length == 4 && kernel.Valid() && Owns(pipes[..], kernel.table, base)
    modifies pipes, kernel
    ensures kernel.Valid() && kernel.everOpened == old(kernel.everOpened)
    ensures pipes[..] == Emptied(old(pipes[..]), OUT_READ) && Owns(pipes[..], kernel.table, base)
    ensures output == if old(pipes[OUT_READ]) >= 0 then Some(FirstLine(Concat(chunks))) else None
  {
    hide Owns, Kernel.Valid, FirstLine;
    if pipes[OUT_READ] < 0 {
      return None;
    }
    var data := ReadAll(chunks);
    CloseFd(pipes, OUT_READ, kernel, base);
    output := Some(FirstLine(data));
  }

  /** The reading loop; a chunk that is not there is end of file, an error or the deadline. */
  method ReadAll(chunks: seq<string>) returns (data: string)
    ensures FirstLine(data) == FirstLine(Concat(chunks))
  {
    hide FirstLine;
    data := "";
    var used := 0;
    while |data| < LIMIT && '\n' !in data
      invariant used <= |chunks|
      invariant data + Concat(chunks[used..]) == Concat(chunks)
      decreases |chunks| - used
    {
      if used == |chunks| {
        break;
      }
      data := data + chunks[used];
      used := used + 1;
    }
    EnoughRead(data, Concat(chunks[used..]));
  }

  /** What came after a newline, or after the limit, does not matter. */
  lemma EnoughRead(data: string, rest: string)
    requires |data| >= LIMIT || '\n' in data || rest == ""
    ensures FirstLine(data + rest) == FirstLine(data)
  {
    if |data| >= LIMIT {
      assert |data| == LIMIT ==> data[..LIMIT] == data;
      assert rest == "" ==> data + rest == data;
      assert (data + rest)[..LIMIT] == data[..LIMIT];
    } else if rest == "" {
      assert data + rest == data;
    } else {
      var all := if |data + rest| > LIMIT then (data + rest)[..LIMIT] else data + rest;
      assert data <= all;
      var line := UpToNewline(data);
      UpToNewlineMeans(data, line);
      assert |line| < |data|;
      UpToNewlineMeans(all, line);
    }
  }

  function FirstConclusive(polls: seq<Poll>): (n: nat)
    requires polls != [] && Conclusive(polls[|polls| - 1])
    ensures n < |polls| && Conclusive(polls[n]) && forall i :: 0 <= i < n ==> !Conclusive(polls[i])
  {
    if Conclusive(polls[0]) then 0 else 1 + FirstConclusive(polls[1..])
  }

  method WaitForHelper(polls: seq<Poll>) returns (waited: int, status: int, killed: bool)
    requires polls != [] && Conclusive(polls[|polls| - 1])
    ensures var p := polls[FirstConclusive(polls)];
            && killed == (p.waited == 0)
            && waited == (if killed then -1 else p.waited)
            && (waited > 0 ==> status == p.status)
  {
    status, killed := 0, false;
    var n := 0;
    while true
      invariant n <= FirstConclusive(polls)
      decreases |polls| - n
    {
      if polls[n].waited != 0 {
        waited := polls[n].waited;
        if waited > 0 {
          status := polls[n].status;
        }
        return;
      }
      if polls[n].late {
        killed := true;
        return -1, status, killed;
      }
      n := n + 1;
    }
  }

  // ---------------------------------------------------------------- the whole call

  /** -1 when the helper did not run, timed out or left the uids changed; else what waitpid reported. */
  predicate IsCode(code: int, world: World, wantIn: bool, wantOut: bool)
    requires world.polls != [] && Conclusive(world.polls[|world.polls| - 1])
  {
    var p := world.polls[FirstConclusive(world.polls)];
    if PipesWork(world, wantIn, wantOut) && world.spawnError == 0 && !world.restoreFailed && p.waited > 0
    then code == p.status
    else code == -1
  }

  /** What follows a successful spawn: the input is fed, the output read, and no end is left open. */
  method Converse(pipes: array<int>, input: Option<string>, wantOut: bool, kernel: Kernel, world: World, ghost base: set<int>)
      returns (line: Option<string>, fed: Option<string>)
    requires pipes.Length == 4 && kernel.Valid() && Owns(pipes[..], kernel.table, base)
    requires pipes[IN_READ] < 0 && pipes[OUT_WRITE] < 0
    requires (input.Some? <==> pipes[IN_WRITE] >= 0) && (wantOut <==> pipes[OUT_READ] >= 0)
    modifies pipes, kernel
    ensures kernel.Valid() && kernel.everOpened == old(kernel.everOpened) && kernel.table == base
    ensures line == if wantOut then Some(FirstLine(Concat(world.chunks))) else None
    ensures fed == if input.Some? && world.fdopenWorks then Some(input.value + "\n") else None
  {
    hide Owns, Kernel.Valid, FirstLine, Concat, Emptied;
    line, fed := None, None;
    if input.Some? {
      fed := FeedHelper(pipes, input.value, kernel, world, base);
    }
    if wantOut {
      line := ReadHelper(pipes, world.chunks, kernel, base);
    }
    OwnsNothing(pipes[..], kernel.table, base);
  }

  method RunRootHelper(kernel: Kernel, world: World, input: Option<string>, wantOut: bool)
      returns (code: int, line: Option<string>, fed: Option<string>)
    requires kernel.Valid() && Sane(world, kernel.table, input.Some?)
    modifies kernel
    ensures kernel.Valid() && kernel.table == old(kernel.table)
    ensures kernel.everOpened == old(kernel.everOpened) + multiset(EndsOpened(world, input.Some?, wantOut))
    ensures kernel.everClosed == old(kernel.everClosed) + multiset(EndsOpened(world, input.Some?, wantOut))
    ensures IsCode(code, world, input.Some?, wantOut)
    ensures var ran := PipesWork(world, input.Some?, wantOut) && world.spawnError == 0;
            && line == (if ran && wantOut then Some(FirstLine(Concat(world.chunks))) else None)
            && fed == (if ran && input.Some? && world.fdopenWorks then Some(input.value + "\n") else None)
  {
    hide Owns, Kernel.Valid, FirstLine, EndsOpened, Concat, Emptied, FirstConclusive;
    line, fed := None, None;
    ghost var opened0, closed0 := kernel.everOpened, kernel.everClosed;
    ghost var base := kernel.table;
    Accounts(kernel);
    var pipes := new int[4](_ => -1);
    var ok := OpenHelperPipes(input.Some?, wantOut, pipes, kernel, world);
    if !ok {
      Balanced(kernel, opened0, closed0, EndsOpened(world, input.Some?, wantOut));
      return -1, None, None;
    }
    CloseFd(pipes, IN_READ, kernel, base);
    CloseFd(pipes, OUT_WRITE, kernel, base);
    if world.spawnError != 0 {
      CloseAll(pipes, kernel, base);
      Balanced(kernel, opened0, closed0, EndsOpened(world, input.Some?, wantOut));
      return -1, None, None;
    }
    line, fed := Converse(pipes, input, wantOut, kernel, world, base);
    Balanced(kernel, opened0, closed0, EndsOpened(world, input.Some?, wantOut));
    var waited, status, killed := WaitForHelper(world.polls);
    code := if world.restoreFailed || waited < 0 then -1 else status;
  }
}
