/** The resumable loops of the batch scripts: a progress file keeps the index
    of the next item and one entry per item done; a run starts at that index
    (at 0 with no entries when there is no file), records each item that
    succeeds and saves the progress, and stops at the first item that fails,
    so that the next run retries it. What happens to item `i` is an oracle:
    `step(i)` is the entry recorded for it, or `None` when it failed. */
module Resume {
  import opened Wrappers

  datatype Progress<E> = Progress(lastIndex: nat, done: seq<E>)

  /** The progress a run starts from: the file's, or index 0 with no entries
      when there is no file. */
  function Start<E>(file: Option<Progress<E>>): (p: Progress<E>)
    ensures file.None? ==> p.lastIndex == 0 && p.done == []
    ensures file.Some? ==> p == file.value
  {
    if file.Some? then file.value else Progress(0, [])
  }

  /** What a run over `n` items does from progress `p` on. */
  function RunFrom<E>(n: nat, p: Progress<E>, step: nat -> Option<E>): Progress<E>
    decreases n - p.lastIndex
  {
    if p.lastIndex >= n then p
    else match step(p.lastIndex)
      case None => p
      case Some(e) => RunFrom(n, Progress(p.lastIndex + 1, p.done + [e]), step)
  }

  /** The progress file on disk. */
  class ProgressFile<E> {
    var saved: Option<Progress<E>>

    constructor(saved0: Option<Progress<E>>)
      ensures saved == saved0
    {
      saved := saved0;
    }
  }

  /** A run moves the index forward over the items that succeeded, one entry
      each, in order, and stops at the first item that failed; the entries
      recorded before are kept. */
  lemma {:induction false} RunShape<E>(n: nat, p: Progress<E>, step: nat -> Option<E>)
    requires p.lastIndex <= n
    ensures var r := RunFrom(n, p, step);
            && p.lastIndex <= r.lastIndex <= n
            && |r.done| == |p.done| + (r.lastIndex - p.lastIndex)
            && r.done[..|p.done|] == p.done
            && (forall k :: p.lastIndex <= k < r.lastIndex ==>
                  step(k).Some? && r.done[|p.done| + (k - p.lastIndex)] == step(k).value)
            && (r.lastIndex < n ==> step(r.lastIndex).None?)
    decreases n - p.lastIndex
  {
    if p.lastIndex < n && step(p.lastIndex).Some? {
      var i := p.lastIndex;
      var q := Progress(i + 1, p.done + [step(i).value]);
      RunShape(n, q, step);
      var r := RunFrom(n, p, step);
      assert r.done[..|q.done|][..|p.done|] == p.done;
    }
  }

  /** A run that starts beyond the last item does nothing. */
  lemma NothingLeftNothingDone<E>(n: nat, p: Progress<E>, step: nat -> Option<E>)
    requires p.lastIndex >= n
    ensures RunFrom(n, p, step) == p
  {
  }

  /** From a fresh start, the index counts the entries. */
  lemma FreshStartCounts<E>(n: nat, step: nat -> Option<E>)
    ensures var r := RunFrom(n, Start(None), step);
            |r.done| == r.lastIndex
  {
    RunShape(n, Progress(0, []), step);
  }

  /** Once every item is done, running again changes nothing, whatever
      happens to the items. */
  lemma FinishedRunIsStable<E>(n: nat, p: Progress<E>, step: nat -> Option<E>, again: nat -> Option<E>)
    requires RunFrom(n, p, step).lastIndex >= n
    ensures RunFrom(n, RunFrom(n, p, step), again) == RunFrom(n, p, step)
  {
  }

  /** The outcome `first` below index `stop` and `second` from there on. */
  function Spliced<E>(first: nat -> Option<E>, second: nat -> Option<E>, stop: nat): nat -> Option<E> {
    (k: nat) => if k < stop then first(k) else second(k)
  }

  /** Resuming is seamless: a run that stopped, followed by a run from its
      saved progress, ends where one run would have ended had the items gone
      as in the first run up to the stop and as in the second from there on. */
  lemma {:induction false} ResumeIsSeamless<E>(n: nat, p: Progress<E>, first: nat -> Option<E>, second: nat -> Option<E>)
    ensures var stop := RunFrom(n, p, first).lastIndex;
            RunFrom(n, RunFrom(n, p, first), second) == RunFrom(n, p, Spliced(first, second, stop))
    decreases n - p.lastIndex
  {
    var stop := RunFrom(n, p, first).lastIndex;
    if p.lastIndex < n && first(p.lastIndex).Some? {
      var i := p.lastIndex;
      var q := Progress(i + 1, p.done + [first(i).value]);
      assert RunFrom(n, p, first) == RunFrom(n, q, first);
      ResumeIsSeamless(n, q, first, second);
      RunShape(n, q, first);
      assert Spliced(first, second, stop)(i) == first(i);
    } else {
      SameStepsFrom(n, p, Spliced(first, second, stop), second);
    }
  }

  /** A run only looks at the items from its starting index on. */
  lemma {:induction false} SameStepsFrom<E>(n: nat, p: Progress<E>, a: nat -> Option<E>, b: nat -> Option<E>)
    requires forall k :: p.lastIndex <= k ==> a(k) == b(k)
    ensures RunFrom(n, p, a) == RunFrom(n, p, b)
    decreases n - p.lastIndex
  {
    if p.lastIndex < n && a(p.lastIndex).Some? {
      var i := p.lastIndex;
      SameStepsFrom(n, Progress(i + 1, p.done + [a(i).value]), a, b);
    }
  }
}
