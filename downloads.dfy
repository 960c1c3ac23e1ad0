/** The download counter: a record from file identifier to the number of
    times its download link was clicked. Each click replaces the record by
    an updated copy; a sequence of clicks is a fold of that update. */
module Downloads {

  type Counts = map<string, nat>

  /** The count shown for a file: the stored value, or 0 when the file has
      no entry. */
  function Count(counts: Counts, file: string): (n: nat)
    ensures file !in counts ==> n == 0
    ensures file in counts ==> n == counts[file]
  {
    if file in counts then counts[file] else 0
  }

  /** The update a click on a download link applies: a copy of the record
      in which the clicked file's count (0 when absent) is one higher. */
  function RecordDownload(prev: Counts, file: string): (next: Counts)
    ensures Count(next, file) == Count(prev, file) + 1
    ensures next.Keys == prev.Keys + {file}
    ensures forall g :: g in prev && g != file ==> next[g] == prev[g]
  {
    prev[file := Count(prev, file) + 1]
  }

  /** The displayed count of every other file is unchanged by a click. */
  lemma RecordDownloadOthers(prev: Counts, file: string, other: string)
    requires other != file
    ensures Count(RecordDownload(prev, file), other) == Count(prev, other)
  {
  }

  /** The counts after the clicks `clicks`, applied in order, starting
      from `counts`. */
  function Replay(counts: Counts, clicks: seq<string>): (r: Counts)
    ensures counts.Keys <= r.Keys
    ensures forall f :: Count(counts, f) <= Count(r, f)
    decreases |clicks|
  {
    if clicks == [] then counts else Replay(RecordDownload(counts, clicks[0]), clicks[1..])
  }

  /** Clicking `a` and then `b` is replaying `a` then replaying `b`. */
  lemma {:induction false} ReplayAppend(counts: Counts, a: seq<string>, b: seq<string>)
    ensures Replay(counts, a + b) == Replay(Replay(counts, a), b)
    decreases |a|
  {
    if a != [] {
      assert (a + b)[1..] == a[1..] + b;
      ReplayAppend(RecordDownload(counts, a[0]), a[1..], b);
    } else {
      assert a + b == b;
    }
  }

  /** After a sequence of clicks, each file's count has grown by the number
      of clicks on that file, whatever the other clicks were. */
  lemma {:induction false} ReplayCount(counts: Counts, clicks: seq<string>, file: string)
    ensures Count(Replay(counts, clicks), file) == Count(counts, file) + multiset(clicks)[file]
    decreases |clicks|
  {
    if clicks != [] {
      assert clicks == [clicks[0]] + clicks[1..];
      ReplayCount(RecordDownload(counts, clicks[0]), clicks[1..], file);
      if clicks[0] != file {
        RecordDownloadOthers(counts, clicks[0], file);
      }
    }
  }

  /** The files with an entry after the clicks are those with an entry
      before, plus every file clicked. */
  lemma {:induction false} ReplayKeys(counts: Counts, clicks: seq<string>)
    ensures forall f :: f in Replay(counts, clicks) <==> f in counts || f in clicks
    decreases |clicks|
  {
    if clicks != [] {
      ReplayKeys(RecordDownload(counts, clicks[0]), clicks[1..]);
      assert clicks == [clicks[0]] + clicks[1..];
    }
  }

  /** Starting from no record, `n` clicks on `file` give it the count `n`. */
  lemma ReplaySameFile(file: string, n: nat)
    ensures Count(Replay(map[], seq(n, _ => file)), file) == n
  {
    var clicks := seq(n, _ => file);
    ReplayCount(map[], clicks, file);
    MultisetOfRepeat(file, n);
  }

  lemma {:induction false} MultisetOfRepeat(file: string, n: nat)
    ensures multiset(seq(n, _ => file))[file] == n
  {
    if n > 0 {
      MultisetOfRepeat(file, n - 1);
      assert seq(n, _ => file) == seq(n - 1, _ => file) + [file];
    }
  }

  /** Clicks on other files never change a file's count. */
  lemma ReplayOtherFiles(counts: Counts, clicks: seq<string>, file: string)
    requires file !in clicks
    ensures Count(Replay(counts, clicks), file) == Count(counts, file)
  {
    ReplayCount(counts, clicks, file);
  }

  /** The resulting record depends only on how often each file was clicked,
      not on the order of the clicks. */
  lemma ReplayOrderIrrelevant(counts: Counts, a: seq<string>, b: seq<string>)
    requires multiset(a) == multiset(b)
    ensures Replay(counts, a) == Replay(counts, b)
  {
    var ra, rb := Replay(counts, a), Replay(counts, b);
    ReplayKeys(counts, a);
    ReplayKeys(counts, b);
    forall f ensures f in ra <==> f in rb {
      assert f in a <==> f in multiset(a);
      assert f in b <==> f in multiset(b);
    }
    forall f | f in ra ensures ra[f] == rb[f] {
      ReplayCount(counts, a, f);
      ReplayCount(counts, b, f);
    }
  }
}
