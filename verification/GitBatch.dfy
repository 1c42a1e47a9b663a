/** Decoding the output of `git cat-file --batch`. A byte is written as the character with its code. */
module GitBatch {
  import opened Base
  import opened SequentialIds

  type Bytes = string

  datatype Failure = TruncatedOutput | UnparseableHeader(header: Bytes)

  const NL: char := '\n'
  const MISSING: Bytes := " missing"

  // ----- scanning

  predicate Free(s: Bytes, c: char) {
    forall i :: 0 <= i < |s| ==> s[i] != c
  }

  /** The first place of `c` at or after `from`. */
  function IndexOf(s: Bytes, c: char, from: nat): (r: Option<nat>)
    ensures r.Some? ==> from <= r.value < |s|
    decreases |s| - from
  {
    if from >= |s| then None else if s[from] == c then Some(from) else IndexOf(s, c, from + 1)
  }

  lemma {:induction false} IndexOfFirst(s: Bytes, c: char, from: nat, k: nat)
    requires from <= k < |s| && s[k] == c && forall i :: from <= i < k ==> s[i] != c
    ensures IndexOf(s, c, from) == Some(k)
    decreases k - from
  {
    if from < k {
      IndexOfFirst(s, c, from + 1, k);
    }
  }

  lemma {:induction false} IndexOfNothing(s: Bytes, c: char, from: nat)
    requires forall i :: from <= i < |s| ==> s[i] != c
    ensures IndexOf(s, c, from).None?
    decreases |s| - from
  {
    if from < |s| {
      IndexOfNothing(s, c, from + 1);
    }
  }

  predicate EndsWith(s: Bytes, t: Bytes) {
    |s| >= |t| && s[|s| - |t|..] == t
  }

  /** The parts of `s` between spaces. */
  function Split(s: Bytes): (parts: seq<Bytes>)
    ensures parts != []
    decreases |s|
  {
    var k := IndexOf(s, ' ', 0);
    if k.None? then [s] else [s[..k.value]] + Split(s[k.value + 1..])
  }

  function SizeOf(header: Bytes): Option<nat> {
    var parts := Split(header);
    if |parts| > 2 && parts[2] != [] && AllDigits(parts[2]) then Some(NumberOf(parts[2])) else None
  }

  /** `s` from `lo` up to `hi`, cut to what there is. */
  function Subarray(s: Bytes, lo: nat, hi: nat): Bytes {
    if lo >= |s| || hi <= lo then [] else if hi >= |s| then s[lo..] else s[lo..hi]
  }

  // ----- decoding

  datatype Read = Failed(failure: Failure) | Skipped(next: nat) | Taken(content: Bytes, next: nat)

  /** Reads one reply at `offset`. */
  function ReadOne(out: Bytes, offset: nat): Read {
    var nl := IndexOf(out, NL, offset);
    if nl.None? then Failed(TruncatedOutput)
    else
      var header := out[offset..nl.value];
      if EndsWith(header, MISSING) then Skipped(nl.value + 1)
      else
        var size := SizeOf(header);
        if size.None? then Failed(UnparseableHeader(header))
        else Taken(Subarray(out, nl.value + 1, nl.value + 1 + size.value), nl.value + 1 + size.value + 1)
  }

  /** Reads the replies for the paths from the `k`th on. */
  function Decode(out: Bytes, paths: seq<Bytes>, k: nat, offset: nat, contents: map<Bytes, Bytes>): Result<map<Bytes, Bytes>, Failure>
    decreases |paths| - k
  {
    if k >= |paths| then Ok(contents)
    else
      match ReadOne(out, offset)
      case Failed(f) => Err(f)
      case Skipped(next) => Decode(out, paths, k + 1, next, contents)
      case Taken(content, next) => Decode(out, paths, k + 1, next, contents[paths[k] := content])
  }

  /** Parses the reply at `offset`: its header line, then, if found, as many bytes as the header says. */
  method ReadReply(out: Bytes, offset: nat) returns (read: Read)
    ensures read == ReadOne(out, offset)
  {
    var nl := IndexOf(out, NL, offset);
    if nl.None? {
      return Failed(TruncatedOutput);
    }
    var header := out[offset..nl.value];
    if EndsWith(header, MISSING) {
      return Skipped(nl.value + 1);
    }
    var size := SizeOf(header);
    if size.None? {
      return Failed(UnparseableHeader(header));
    }
    var start := nl.value + 1;
    return Taken(Subarray(out, start, start + size.value), start + size.value + 1);
  }

  method DecodeBatch(out: Bytes, paths: seq<Bytes>) returns (result: Result<map<Bytes, Bytes>, Failure>)
    ensures result == Decode(out, paths, 0, 0, map[])
  {
    var contents: map<Bytes, Bytes> := map[];
    var offset: nat := 0;
    for n := 0 to |paths|
      invariant Decode(out, paths, 0, 0, map[]) == Decode(out, paths, n, offset, contents)
    {
      var read := ReadReply(out, offset);
      match read {
        case Failed(failure) => return Err(failure);
        case Skipped(next) => offset := next;
        case Taken(content, next) =>
          contents := contents[paths[n] := content];
          offset := next;
      }
    }
    return Ok(contents);
  }

  // ----- what git answers

  datatype Blob = Blob(oid: Bytes, kind: Bytes, content: Bytes)

  /** The files at a commit, and whatever else a line may name: branches, tags, other objects. */
  datatype Repo = Repo(commit: Bytes, tree: map<Bytes, Blob>, others: map<Bytes, Blob>)

  predicate IsName(s: Bytes) {
    Free(s, ' ') && Free(s, NL)
  }

  predicate IsBlob(b: Blob) {
    IsName(b.oid) && IsName(b.kind)
  }

  predicate IsRepo(repo: Repo) {
    && WellFormed(repo.commit, repo.tree)
    && forall line :: line in repo.others ==> IsBlob(repo.others[line])
  }

  predicate WellFormed(commit: Bytes, tree: map<Bytes, Blob>) {
    Free(commit, NL) && forall p :: p in tree ==> IsBlob(tree[p])
  }

  function Request(commit: Bytes, path: Bytes): Bytes {
    commit + ":" + path
  }

  /** What is written to git for the paths from the `k`th on: one request and a newline each. */
  function Requests(commit: Bytes, paths: seq<Bytes>, k: nat): Bytes
    decreases |paths| - k
  {
    if k >= |paths| then [] else Request(commit, paths[k]) + [NL] + Requests(commit, paths, k + 1)
  }

  /** The lines git reads. */
  function Lines(s: Bytes): seq<Bytes>
    decreases |s|
  {
    var k := IndexOf(s, NL, 0);
    if k.Some? then [s[..k.value]] + Lines(s[k.value + 1..]) else if s == [] then [] else [s]
  }

  function Named(repo: Repo, line: Bytes): Option<Blob> {
    var n := |repo.commit| + 1;
    if |line| >= n && line[..n] == Request(repo.commit, "") then
      if line[n..] in repo.tree then Some(repo.tree[line[n..]]) else None
    else if line in repo.others then Some(repo.others[line])
    else None
  }

  function FoundHeader(b: Blob): Bytes {
    b.oid + " " + b.kind + " " + Decimal(|b.content|)
  }

  function Reply(repo: Repo, line: Bytes): Bytes {
    var b := Named(repo, line);
    if b.Some? then FoundHeader(b.value) + [NL] + (b.value.content + [NL]) else line + MISSING + [NL] + []
  }

  function Replies(repo: Repo, lines: seq<Bytes>): Bytes {
    if lines == [] then [] else Reply(repo, lines[0]) + Replies(repo, lines[1..])
  }

  /** What git writes when asked for `paths`. */
  function BatchOutput(repo: Repo, paths: seq<Bytes>): Bytes {
    Replies(repo, Lines(Requests(repo.commit, paths, 0)))
  }

  /** The paths asked for that are there, with their bytes, and nothing else. */
  ghost predicate IsContents(repo: Repo, paths: seq<Bytes>, result: Result<map<Bytes, Bytes>, Failure>) {
    && result.Ok?
    && (forall p :: p in result.value <==> p in paths && p in repo.tree)
    && (forall p :: p in result.value ==> result.value[p] == repo.tree[p].content)
  }

  // ----- one reply per path: what git writes when every path is a line

  function Header(commit: Bytes, tree: map<Bytes, Blob>, path: Bytes): Bytes {
    if path in tree then FoundHeader(tree[path]) else Request(commit, path) + MISSING
  }

  /** What follows the header line. */
  function Payload(tree: map<Bytes, Blob>, path: Bytes): Bytes {
    if path in tree then tree[path].content + [NL] else []
  }

  function Framed(commit: Bytes, tree: map<Bytes, Blob>, path: Bytes): Bytes {
    Header(commit, tree, path) + [NL] + Payload(tree, path)
  }

  /** The replies for the paths from the `k`th on. */
  function FrameFrom(commit: Bytes, tree: map<Bytes, Blob>, paths: seq<Bytes>, k: nat): Bytes
    decreases |paths| - k
  {
    if k >= |paths| then [] else Framed(commit, tree, paths[k]) + FrameFrom(commit, tree, paths, k + 1)
  }

  function FrameAll(commit: Bytes, tree: map<Bytes, Blob>, paths: seq<Bytes>): Bytes {
    FrameFrom(commit, tree, paths, 0)
  }

  // ----- round trip

  lemma SplitAtSpace(a: Bytes, b: Bytes)
    requires Free(a, ' ')
    ensures Split(a + " " + b) == [a] + Split(b)
  {
    var s := a + " " + b;
    assert s[|a|] == ' ';
    assert forall i :: 0 <= i < |a| ==> s[i] == a[i];
    IndexOfFirst(s, ' ', 0, |a|);
    assert s[..|a|] == a && s[|a| + 1..] == b;
  }

  lemma NoSpaceSplits(c: Bytes)
    requires Free(c, ' ')
    ensures Split(c) == [c]
  {
    IndexOfNothing(c, ' ', 0);
  }

  lemma SplitThree(a: Bytes, b: Bytes, c: Bytes)
    requires Free(a, ' ') && Free(b, ' ') && Free(c, ' ')
    ensures Split(a + " " + b + " " + c) == [a, b, c]
  {
    assert a + " " + b + " " + c == a + " " + (b + " " + c);
    SplitAtSpace(a, b + " " + c);
    SplitAtSpace(b, c);
    NoSpaceSplits(c);
  }

  /** A found header's third field is its size, whatever the content. */
  lemma SizeReads(header: Bytes, oid: Bytes, kind: Bytes, digits: Bytes, size: nat)
    requires Free(oid, ' ') && Free(kind, ' ') && digits == Decimal(size)
    requires header == oid + " " + kind + " " + digits
    ensures SizeOf(header) == Some(size)
  {
    SplitThree(oid, kind, digits);
    DecimalRoundTrip(size);
    assert Split(header)[2] == digits;
  }

  lemma EndsInDigit(header: Bytes, front: Bytes, size: nat)
    requires header == front + Decimal(size)
    ensures !EndsWith(header, MISSING)
  {
    assert header[|header| - 1] == Decimal(size)[|Decimal(size)| - 1];
    if |header| >= |MISSING| {
      assert header[|header| - |MISSING|..][|MISSING| - 1] == header[|header| - 1];
    }
  }

  lemma FoundHeaderReads(b: Blob)
    requires IsBlob(b)
    ensures Free(FoundHeader(b), NL) && !EndsWith(FoundHeader(b), MISSING) && SizeOf(FoundHeader(b)) == Some(|b.content|)
  {
    SizeReads(FoundHeader(b), b.oid, b.kind, Decimal(|b.content|), |b.content|);
    EndsInDigit(FoundHeader(b), b.oid + " " + b.kind + " ", |b.content|);
  }

  lemma MissingHeaderReads(commit: Bytes, tree: map<Bytes, Blob>, path: Bytes)
    requires WellFormed(commit, tree) && Free(path, NL) && path !in tree
    ensures Free(Header(commit, tree, path), NL) && EndsWith(Header(commit, tree, path), MISSING)
  {
    var header := Header(commit, tree, path);
    assert header[|header| - |MISSING|..] == MISSING;
  }

  /** `t` stands in `s` at place `at`. */
  predicate Holds(s: Bytes, at: nat, t: Bytes) {
    at + |t| <= |s| && forall i {:trigger t[i]} :: 0 <= i < |t| ==> s[at + i] == t[i]
  }

  lemma HoldsItself(s: Bytes)
    ensures Holds(s, 0, s) && s == s[..|s|]
  {
  }

  lemma HoldsParts(s: Bytes, at: nat, x: Bytes, y: Bytes)
    requires Holds(s, at, x + y)
    ensures Holds(s, at, x) && Holds(s, at + |x|, y)
  {
    var t := x + y;
    assert forall i :: 0 <= i < |x| ==> x[i] == t[i];
    assert forall i :: 0 <= i < |y| ==> y[i] == t[|x| + i];
  }

  lemma HoldsAt(s: Bytes, at: nat, t: Bytes, k: nat)
    requires Holds(s, at, t) && k < |t|
    ensures s[at + k] == t[k]
  {
  }

  /** How much of the content lies before the cut. */
  ghost function Kept(content: Bytes, room: int): Bytes {
    if room <= 0 then [] else if room < |content| then content[..room] else content
  }

  lemma NoNewlineBefore(all: Bytes, at: nat, header: Bytes, k: nat)
    requires Holds(all, at, header) && Free(header, NL) && at <= k < at + |header|
    ensures all[k] != NL
  {
    HoldsAt(all, at, header, k - at);
  }

  /** The header line of a reply is found whole, or not at all. */
  lemma ReadHeader(all: Bytes, out: Bytes, n: nat, at: nat, header: Bytes)
    requires Holds(all, at, header) && Holds(all, at + |header|, [NL]) && Free(header, NL)
    requires at <= n <= |all| && out == all[..n]
    ensures n <= at + |header| ==> IndexOf(out, NL, at).None?
    ensures n > at + |header| ==> IndexOf(out, NL, at) == Some(at + |header|) && out[at..at + |header|] == header
  {
    HoldsAt(all, at + |header|, [NL], 0);
    forall k | at <= k < at + |header| ensures all[k] != NL {
      NoNewlineBefore(all, at, header, k);
    }
    if n <= at + |header| {
      IndexOfNothing(out, NL, at);
    } else {
      IndexOfFirst(out, NL, at, at + |header|);
    }
  }

  lemma ReadContent(all: Bytes, out: Bytes, n: nat, at: nat, content: Bytes)
    requires Holds(all, at, content) && at <= n <= |all| && out == all[..n]
    ensures Subarray(out, at, at + |content|) == Kept(content, n - at)
  {
    if at < n < at + |content| {
      assert out[at..] == all[at..at + |content|][..n - at];
    } else if at < n {
      assert out[at..at + |content|] == all[at..at + |content|];
    }
  }

  /** Wherever it stands, and whatever bytes its content is made of, one framed reply reads back, cut where
      the stream is cut. */
  lemma ReadFramed(all: Bytes, out: Bytes, n: nat, at: nat, commit: Bytes, tree: map<Bytes, Blob>, path: Bytes)
    requires WellFormed(commit, tree) && Free(path, NL) && Holds(all, at, Framed(commit, tree, path))
    requires at <= n <= |all| && out == all[..n]
    ensures
      var start := at + |Header(commit, tree, path)| + 1;
      ReadOne(out, at) ==
        if n < start then Failed(TruncatedOutput)
        else if path in tree then Taken(Kept(tree[path].content, n - start), at + |Framed(commit, tree, path)|)
        else Skipped(at + |Framed(commit, tree, path)|)
  {
    HoldsFramed(all, at, commit, tree, path);
    if path in tree {
      FoundHeaderReads(tree[path]);
      ReadFound(all, out, n, at, Header(commit, tree, path), tree[path].content);
    } else {
      MissingHeaderReads(commit, tree, path);
      ReadAbsent(all, out, n, at, Header(commit, tree, path));
    }
  }

  lemma ReadAbsent(all: Bytes, out: Bytes, n: nat, at: nat, header: Bytes)
    requires Holds(all, at, header) && Holds(all, at + |header|, [NL]) && Free(header, NL) && EndsWith(header, MISSING)
    requires at <= n <= |all| && out == all[..n]
    ensures ReadOne(out, at) == if n < at + |header| + 1 then Failed(TruncatedOutput) else Skipped(at + |header| + 1)
  {
    ReadHeader(all, out, n, at, header);
  }

  lemma HoldsFramed(all: Bytes, at: nat, commit: Bytes, tree: map<Bytes, Blob>, path: Bytes)
    requires Holds(all, at, Framed(commit, tree, path))
    ensures Holds(all, at, Header(commit, tree, path)) && Holds(all, at + |Header(commit, tree, path)|, [NL])
    ensures path in tree ==> Holds(all, at + |Header(commit, tree, path)| + 1, tree[path].content)
  {
    var header := Header(commit, tree, path);
    HoldsParts(all, at, header + [NL], Payload(tree, path));
    HoldsParts(all, at, header, [NL]);
    if path in tree {
      HoldsParts(all, at + |header| + 1, tree[path].content, [NL]);
    }
  }

  lemma ReadFound(all: Bytes, out: Bytes, n: nat, at: nat, header: Bytes, content: Bytes)
    requires Holds(all, at, header) && Holds(all, at + |header|, [NL]) && Holds(all, at + |header| + 1, content)
    requires Free(header, NL) && !EndsWith(header, MISSING) && SizeOf(header) == Some(|content|)
    requires at <= n <= |all| && out == all[..n]
    ensures
      var start := at + |header| + 1;
      ReadOne(out, at) ==
        if n < start then Failed(TruncatedOutput) else Taken(Kept(content, n - start), start + |content| + 1)
  {
    ReadHeader(all, out, n, at, header);
    if n > at + |header| {
      ReadContent(all, out, n, at + |header| + 1, content);
      ReadOneTakes(out, at, at + |header|, header, |content|);
    }
  }

  lemma ReadOneTakes(out: Bytes, at: nat, nl: nat, header: Bytes, size: nat)
    requires IndexOf(out, NL, at) == Some(nl) && out[at..nl] == header
    requires !EndsWith(header, MISSING) && SizeOf(header) == Some(size)
    ensures ReadOne(out, at) == Taken(Subarray(out, nl + 1, nl + 1 + size), nl + 1 + size + 1)
  {
  }

  function WithPath(tree: map<Bytes, Blob>, path: Bytes, contents: map<Bytes, Bytes>): map<Bytes, Bytes> {
    if path in tree then contents[path := tree[path].content] else contents
  }

  /** What reading the paths from the `k`th up to the `m`th adds: the present ones with their bytes, later
      ones overriding. */
  ghost function Collected(tree: map<Bytes, Blob>, paths: seq<Bytes>, k: nat, m: nat, contents: map<Bytes, Bytes>): map<Bytes, Bytes>
    requires m <= |paths|
    decreases m - k
  {
    if k >= m then contents else Collected(tree, paths, k + 1, m, WithPath(tree, paths[k], contents))
  }

  lemma {:induction false} CollectedIsPresent(tree: map<Bytes, Blob>, paths: seq<Bytes>, k: nat, contents: map<Bytes, Bytes>)
    requires k <= |paths|
    ensures
      var c := Collected(tree, paths, k, |paths|, contents);
      && (forall p :: p in c <==> (p in paths[k..] && p in tree) || p in contents)
      && (forall p :: p in c ==> c[p] == if p in paths[k..] && p in tree then tree[p].content else contents[p])
    decreases |paths| - k
  {
    if k < |paths| {
      CollectedIsPresent(tree, paths, k + 1, WithPath(tree, paths[k], contents));
      assert paths[k..] == [paths[k]] + paths[k + 1..];
    }
  }

  lemma {:induction false} CollectedSnoc(tree: map<Bytes, Blob>, paths: seq<Bytes>, k: nat, m: nat, contents: map<Bytes, Bytes>)
    requires k <= m < |paths|
    ensures Collected(tree, paths, k, m + 1, contents) == WithPath(tree, paths[m], Collected(tree, paths, k, m, contents))
    decreases m - k
  {
    if k < m {
      CollectedSnoc(tree, paths, k + 1, m, WithPath(tree, paths[k], contents));
    }
  }

  predicate NoNewlines(paths: seq<Bytes>) {
    forall i :: 0 <= i < |paths| ==> Free(paths[i], NL)
  }

  /** Where the last reply's payload begins, when the `k`th reply begins at `at`. */
  ghost function LastStart(at: nat, commit: Bytes, tree: map<Bytes, Blob>, paths: seq<Bytes>, k: nat): int
    requires paths != []
  {
    at + |FrameFrom(commit, tree, paths, k)| - |Payload(tree, paths[|paths| - 1])|
  }

  /** What the decoder makes, from the `k`th reply on, of a framed stream cut at `n`. */
  ghost function CutResult(at: nat, commit: Bytes, tree: map<Bytes, Blob>, paths: seq<Bytes>, k: nat, n: nat,
                           contents: map<Bytes, Bytes>): Result<map<Bytes, Bytes>, Failure>
    requires paths != []
  {
    var (start, last) := (LastStart(at, commit, tree, paths, k), paths[|paths| - 1]);
    var c := Collected(tree, paths, k, |paths| - 1, contents);
    if n < start then Err(TruncatedOutput)
    else Ok(if last in tree then c[last := Kept(tree[last].content, n - start)] else c)
  }

  lemma ReadCutLast(all: Bytes, out: Bytes, n: nat, at: nat, commit: Bytes, tree: map<Bytes, Blob>, paths: seq<Bytes>, k: nat,
                    contents: map<Bytes, Bytes>)
    requires WellFormed(commit, tree) && k == |paths| - 1 && Free(paths[k], NL)
    requires Holds(all, at, Framed(commit, tree, paths[k]))
    requires at <= n <= |all| && out == all[..n]
    ensures Decode(out, paths, k, at, contents) == CutResult(at, commit, tree, paths, k, n, contents)
  {
    ReadFramed(all, out, n, at, commit, tree, paths[k]);
    LastDecoded(out, n, at, commit, tree, paths, k, contents);
  }

  lemma LastDecoded(out: Bytes, n: nat, at: nat, commit: Bytes, tree: map<Bytes, Blob>, paths: seq<Bytes>, k: nat,
                    contents: map<Bytes, Bytes>)
    requires k == |paths| - 1
    requires
      var start := at + |Header(commit, tree, paths[k])| + 1;
      ReadOne(out, at) ==
        if n < start then Failed(TruncatedOutput)
        else if paths[k] in tree then Taken(Kept(tree[paths[k]].content, n - start), at + |Framed(commit, tree, paths[k])|)
        else Skipped(at + |Framed(commit, tree, paths[k])|)
    ensures Decode(out, paths, k, at, contents) == CutResult(at, commit, tree, paths, k, n, contents)
  {
    assert FrameFrom(commit, tree, paths, k + 1) == [];
    assert |FrameFrom(commit, tree, paths, k)| == |Framed(commit, tree, paths[k])|;
  }

  lemma FrameStep(all: Bytes, at: nat, commit: Bytes, tree: map<Bytes, Blob>, paths: seq<Bytes>, k: nat)
    requires k < |paths| && Holds(all, at, FrameFrom(commit, tree, paths, k))
    ensures Holds(all, at, Framed(commit, tree, paths[k]))
    ensures Holds(all, at + |Framed(commit, tree, paths[k])|, FrameFrom(commit, tree, paths, k + 1))
  {
    HoldsParts(all, at, Framed(commit, tree, paths[k]), FrameFrom(commit, tree, paths, k + 1));
  }

  lemma {:induction false} ReadCutStream(all: Bytes, out: Bytes, n: nat, at: nat, commit: Bytes, tree: map<Bytes, Blob>,
                                         paths: seq<Bytes>, k: nat, contents: map<Bytes, Bytes>)
    requires WellFormed(commit, tree) && NoNewlines(paths) && k < |paths|
    requires Holds(all, at, FrameFrom(commit, tree, paths, k))
    requires at <= n <= |all| && out == all[..n]
    ensures Decode(out, paths, k, at, contents) == CutResult(at, commit, tree, paths, k, n, contents)
    decreases |paths| - k
  {
    var next := at + |Framed(commit, tree, paths[k])|;
    FrameStep(all, at, commit, tree, paths, k);
    if k == |paths| - 1 {
      ReadCutLast(all, out, n, at, commit, tree, paths, k, contents);
    } else if n < next {
      CutInFirst(all, out, n, at, commit, tree, paths, k, contents);
    } else {
      ReadCutStream(all, out, n, next, commit, tree, paths, k + 1, WithPath(tree, paths[k], contents));
      FirstIsWhole(all, out, n, at, commit, tree, paths[k]);
      CutLater(out, n, at, next, commit, tree, paths, k, contents);
    }
  }

  lemma CutLater(out: Bytes, n: nat, at: nat, next: nat, commit: Bytes, tree: map<Bytes, Blob>, paths: seq<Bytes>, k: nat,
                 contents: map<Bytes, Bytes>)
    requires k < |paths| - 1 && next == at + |Framed(commit, tree, paths[k])|
    requires ReadOne(out, at) == if paths[k] in tree then Taken(tree[paths[k]].content, next) else Skipped(next)
    requires Decode(out, paths, k + 1, next, WithPath(tree, paths[k], contents)) ==
             CutResult(next, commit, tree, paths, k + 1, n, WithPath(tree, paths[k], contents))
    ensures Decode(out, paths, k, at, contents) == CutResult(at, commit, tree, paths, k, n, contents)
  {
    DecodeOn(out, paths, k, at, next, tree, contents);
  }

  lemma CutInFirst(all: Bytes, out: Bytes, n: nat, at: nat, commit: Bytes, tree: map<Bytes, Blob>, paths: seq<Bytes>, k: nat,
                   contents: map<Bytes, Bytes>)
    requires WellFormed(commit, tree) && k < |paths| - 1 && Free(paths[k], NL)
    requires Holds(all, at, Framed(commit, tree, paths[k]))
    requires at <= n < at + |Framed(commit, tree, paths[k])| && n <= |all| && out == all[..n]
    ensures Decode(out, paths, k, at, contents) == CutResult(at, commit, tree, paths, k, n, contents)
  {
    ReadFramed(all, out, n, at, commit, tree, paths[k]);
    CutBeforeRest(out, at, commit, tree, paths, k, contents);
  }

  /** A whole first reply is read whole. */
  lemma FirstIsWhole(all: Bytes, out: Bytes, n: nat, at: nat, commit: Bytes, tree: map<Bytes, Blob>, path: Bytes)
    requires WellFormed(commit, tree) && Free(path, NL) && Holds(all, at, Framed(commit, tree, path))
    requires at + |Framed(commit, tree, path)| <= n <= |all| && out == all[..n]
    ensures
      var next := at + |Framed(commit, tree, path)|;
      ReadOne(out, at) == if path in tree then Taken(tree[path].content, next) else Skipped(next)
  {
    ReadFramed(all, out, n, at, commit, tree, path);
    if path in tree {
      WholeIsKept(commit, tree, path, n - at);
    }
  }

  lemma DecodeOn(out: Bytes, paths: seq<Bytes>, k: nat, at: nat, next: nat, tree: map<Bytes, Blob>, contents: map<Bytes, Bytes>)
    requires k < |paths|
    requires ReadOne(out, at) == if paths[k] in tree then Taken(tree[paths[k]].content, next) else Skipped(next)
    ensures Decode(out, paths, k, at, contents) == Decode(out, paths, k + 1, next, WithPath(tree, paths[k], contents))
  {
  }

  lemma WholeIsKept(commit: Bytes, tree: map<Bytes, Blob>, path: Bytes, room: int)
    requires room >= |Framed(commit, tree, path)| && path in tree
    ensures Kept(tree[path].content, room - |Header(commit, tree, path)| - 1) == tree[path].content
  {
  }

  /** A cut inside a reply that is not the last is noticed: the next header cannot be found. */
  lemma CutBeforeRest(out: Bytes, at: nat, commit: Bytes, tree: map<Bytes, Blob>, paths: seq<Bytes>, k: nat,
                      contents: map<Bytes, Bytes>)
    requires k < |paths| - 1 && |out| < at + |Framed(commit, tree, paths[k])|
    requires
      var read := ReadOne(out, at);
      read == Failed(TruncatedOutput) || (!read.Failed? && read.next == at + |Framed(commit, tree, paths[k])|)
    ensures Decode(out, paths, k, at, contents) == Err(TruncatedOutput) == CutResult(at, commit, tree, paths, k, |out|, contents)
  {
    RestHasLastStart(commit, tree, paths, k + 1);
    assert ReadOne(out, at + |Framed(commit, tree, paths[k])|) == Failed(TruncatedOutput);
  }

  lemma {:induction false} RestHasLastStart(commit: Bytes, tree: map<Bytes, Blob>, paths: seq<Bytes>, k: nat)
    requires k < |paths|
    ensures |FrameFrom(commit, tree, paths, k)| > |Payload(tree, paths[|paths| - 1])|
    decreases |paths| - k
  {
    if k < |paths| - 1 {
      RestHasLastStart(commit, tree, paths, k + 1);
    }
  }

  lemma NothingIsCut(commit: Bytes, tree: map<Bytes, Blob>, paths: seq<Bytes>)
    requires paths != []
    ensures
      CutResult(0, commit, tree, paths, 0, |FrameAll(commit, tree, paths)|, map[]) ==
      Ok(Collected(tree, paths, 0, |paths|, map[]))
  {
    CollectedSnoc(tree, paths, 0, |paths| - 1, map[]);
    RestHasLastStart(commit, tree, paths, 0);
  }

  lemma DecodeWhole(commit: Bytes, tree: map<Bytes, Blob>, paths: seq<Bytes>)
    requires WellFormed(commit, tree) && NoNewlines(paths)
    ensures Decode(FrameAll(commit, tree, paths), paths, 0, 0, map[]) == Ok(Collected(tree, paths, 0, |paths|, map[]))
  {
    if paths != [] {
      var all := FrameAll(commit, tree, paths);
      HoldsItself(all);
      ReadCutStream(all, all, |all|, 0, commit, tree, paths, 0, map[]);
      NothingIsCut(commit, tree, paths);
    }
  }

  lemma FirstLine(a: Bytes, rest: Bytes)
    requires Free(a, NL)
    ensures Lines(a + [NL] + rest) == [a] + Lines(rest)
  {
    var s := a + [NL] + rest;
    IndexOfFirst(s, NL, 0, |a|);
    assert s[..|a|] == a && s[|a| + 1..] == rest;
  }

  lemma RequestNames(repo: Repo, path: Bytes)
    ensures Named(repo, Request(repo.commit, path)) == if path in repo.tree then Some(repo.tree[path]) else None
    ensures Reply(repo, Request(repo.commit, path)) == Framed(repo.commit, repo.tree, path)
  {
    var line := Request(repo.commit, path);
    assert line[..|repo.commit| + 1] == Request(repo.commit, "") && line[|repo.commit| + 1..] == path;
  }

  /** Newline-free paths reach git as one line each. */
  lemma {:induction false} OneReplyEach(repo: Repo, paths: seq<Bytes>, k: nat)
    requires Free(repo.commit, NL) && NoNewlines(paths)
    ensures Replies(repo, Lines(Requests(repo.commit, paths, k))) == FrameFrom(repo.commit, repo.tree, paths, k)
    decreases |paths| - k
  {
    if k < |paths| {
      var line, rest := Request(repo.commit, paths[k]), Requests(repo.commit, paths, k + 1);
      OneReplyEach(repo, paths, k + 1);
      FirstLine(line, rest);
      RequestNames(repo, paths[k]);
      assert ([line] + Lines(rest))[1..] == Lines(rest);
    }
  }

  /** For newline-free paths, decoding what git answers gives exactly the present paths, each with its bytes,
      whatever those bytes are. */
  lemma DecodeInvertsFraming(repo: Repo, paths: seq<Bytes>)
    requires IsRepo(repo) && NoNewlines(paths)
    ensures IsContents(repo, paths, Decode(BatchOutput(repo, paths), paths, 0, 0, map[]))
  {
    OneReplyEach(repo, paths, 0);
    DecodeWhole(repo.commit, repo.tree, paths);
    CollectedIsPresent(repo.tree, paths, 0, map[]);
    assert paths[0..] == paths;
  }

  /** A stream cut short is reported exactly when the cut comes before the last reply's payload; a cut
      inside the last payload goes unnoticed, and shortens that content. */
  lemma TruncationReportedExactly(repo: Repo, paths: seq<Bytes>, n: nat)
    requires IsRepo(repo) && NoNewlines(paths) && paths != []
    requires n <= |BatchOutput(repo, paths)|
    ensures
      var result := Decode(BatchOutput(repo, paths)[..n], paths, 0, 0, map[]);
      var (start, last) := (LastStart(0, repo.commit, repo.tree, paths, 0), paths[|paths| - 1]);
      && (result.Err? <==> n < start)
      && (result.Ok? && last in repo.tree ==>
            last in result.value && result.value[last] == Kept(repo.tree[last].content, n - start))
  {
    OneReplyEach(repo, paths, 0);
    var all := BatchOutput(repo, paths);
    HoldsItself(all);
    ReadCutStream(all, all[..n], n, 0, repo.commit, repo.tree, paths, 0, map[]);
  }

  lemma ReadMissing(out: Bytes, at: nat, input: Bytes)
    requires Free(input, NL) && Holds(out, at, input + MISSING + [NL])
    ensures ReadOne(out, at) == Skipped(at + |input + MISSING + [NL]|)
  {
    var header := input + MISSING;
    assert Free(MISSING, NL);
    HoldsParts(out, at, header, [NL]);
    HoldsItself(out);
    assert header[|input|..] == MISSING;
    ReadAbsent(out, out, |out|, at, header);
  }

  // ----- when the round trip holds

  /** Wherever it stands, one whole reply reads back. */
  lemma ReadReplied(out: Bytes, at: nat, repo: Repo, line: Bytes)
    requires IsRepo(repo) && Free(line, NL) && Holds(out, at, Reply(repo, line))
    ensures
      var (b, next) := (Named(repo, line), at + |Reply(repo, line)|);
      ReadOne(out, at) == if b.Some? then Taken(b.value.content, next) else Skipped(next)
  {
    var b := Named(repo, line);
    if b.Some? {
      var header, content := FoundHeader(b.value), b.value.content;
      FoundHeaderReads(b.value);
      HoldsParts(out, at, header + [NL], content + [NL]);
      HoldsParts(out, at, header, [NL]);
      HoldsParts(out, at + |header| + 1, content, [NL]);
      HoldsItself(out);
      ReadFound(out, out, |out|, at, header, content);
    } else {
      assert Reply(repo, line) == line + MISSING + [NL];
      ReadMissing(out, at, line);
    }
  }

  /** Reads the first of the replies that stand at `at`, and leaves the others standing. */
  lemma NextReply(out: Bytes, at: nat, repo: Repo, lines: seq<Bytes>) returns (next: nat)
    requires IsRepo(repo) && lines != [] && Free(lines[0], NL) && Holds(out, at, Replies(repo, lines))
    ensures Holds(out, next, Replies(repo, lines[1..]))
    ensures
      var b := Named(repo, lines[0]);
      ReadOne(out, at) == if b.Some? then Taken(b.value.content, next) else Skipped(next)
  {
    RepliesStep(out, at, repo, lines);
    ReadReplied(out, at, repo, lines[0]);
    next := at + |Reply(repo, lines[0])|;
  }

  lemma RepliesStep(out: Bytes, at: nat, repo: Repo, lines: seq<Bytes>)
    requires lines != [] && Holds(out, at, Replies(repo, lines))
    ensures Holds(out, at, Reply(repo, lines[0])) && Holds(out, at + |Reply(repo, lines[0])|, Replies(repo, lines[1..]))
  {
    HoldsParts(out, at, Reply(repo, lines[0]), Replies(repo, lines[1..]));
  }

  ghost predicate AllEmpty(contents: map<Bytes, Bytes>) {
    forall p :: p in contents ==> contents[p] == []
  }

  ghost predicate FindsOnlyEmpty(repo: Repo, lines: seq<Bytes>) {
    forall l :: l in lines ==> Free(l, NL) && (Named(repo, l).Some? ==> Named(repo, l).value.content == [])
  }

  lemma EmptyFirst(repo: Repo, lines: seq<Bytes>)
    requires FindsOnlyEmpty(repo, lines) && lines != []
    ensures FindsOnlyEmpty(repo, lines[1..]) && Free(lines[0], NL)
    ensures Named(repo, lines[0]).Some? ==> Named(repo, lines[0]).value.content == []
  {
    assert lines[0] in lines;
  }

  lemma DecodeReply(out: Bytes, paths: seq<Bytes>, k: nat, at: nat, next: nat, found: Option<Blob>, contents: map<Bytes, Bytes>)
    requires k < |paths|
    requires ReadOne(out, at) == if found.Some? then Taken(found.value.content, next) else Skipped(next)
    ensures
      Decode(out, paths, k, at, contents) ==
      Decode(out, paths, k + 1, next, if found.Some? then contents[paths[k] := found.value.content] else contents)
  {
  }

  /** While git answers at least one line a path, and never with any bytes, none are read for any path. */
  lemma {:induction false} OnlyEmptyIsRead(out: Bytes, at: nat, repo: Repo, lines: seq<Bytes>, paths: seq<Bytes>, k: nat,
                                           contents: map<Bytes, Bytes>)
    requires IsRepo(repo) && FindsOnlyEmpty(repo, lines) && AllEmpty(contents)
    requires Holds(out, at, Replies(repo, lines)) && k <= |paths| <= k + |lines|
    ensures
      var result := Decode(out, paths, k, at, contents);
      result.Ok? && AllEmpty(result.value)
    decreases |paths| - k
  {
    if k < |paths| {
      EmptyFirst(repo, lines);
      var next := NextReply(out, at, repo, lines);
      var found := Named(repo, lines[0]);
      var more := if found.Some? then contents[paths[k] := []] else contents;
      DecodeReply(out, paths, k, at, next, found, contents);
      OnlyEmptyIsRead(out, next, repo, lines[1..], paths, k + 1, more);
    }
  }

  lemma {:induction false} LinesAreFree(s: Bytes)
    ensures forall l :: l in Lines(s) ==> Free(l, NL)
    decreases |s|
  {
    var k := IndexOf(s, NL, 0);
    if k.Some? {
      UpToFirst(s, NL, 0);
      LinesAreFree(s[k.value + 1..]);
    } else {
      UpToFirst(s, NL, 0);
    }
  }

  lemma {:induction false} UpToFirst(s: Bytes, c: char, from: nat)
    ensures
      var k := IndexOf(s, c, from);
      && (forall i :: from <= i < (if k.Some? then k.value else |s|) ==> s[i] != c)
      && (k.Some? ==> s[k.value] == c)
    decreases |s| - from
  {
    if from < |s| {
      UpToFirst(s, c, from + 1);
    }
  }

  /** Whatever a request is made of, it is at least one line. */
  lemma {:induction false} AtLeastOneLine(a: Bytes, rest: Bytes)
    ensures |Lines(a + [NL] + rest)| > |Lines(rest)|
    decreases |a|
  {
    var s := a + [NL] + rest;
    UpToFirst(s, NL, 0);
    assert s[|a|] == NL;
    var k := IndexOf(s, NL, 0).value;
    if k == |a| {
      assert s[k + 1..] == rest;
    } else {
      AtLeastOneLine(a[k + 1..], rest);
      assert s[k + 1..] == a[k + 1..] + [NL] + rest;
    }
  }

  lemma {:induction false} AtLeastOneLineEach(commit: Bytes, paths: seq<Bytes>, k: nat)
    requires k <= |paths|
    ensures |Lines(Requests(commit, paths, k))| >= |paths| - k
    decreases |paths| - k
  {
    if k < |paths| {
      AtLeastOneLine(Request(commit, paths[k]), Requests(commit, paths, k + 1));
      AtLeastOneLineEach(commit, paths, k + 1);
    }
  }

  /** Every path is there, those with a newline with some bytes and the others empty. */
  function Betraying(commit: Bytes, paths: seq<Bytes>): Repo {
    Repo(commit, map p | p in paths :: Blob("1", "blob", if Free(p, NL) then [] else "!"), map[])
  }

  lemma BetrayingFindsOnlyEmpty(commit: Bytes, paths: seq<Bytes>, lines: seq<Bytes>)
    requires forall l :: l in lines ==> Free(l, NL)
    ensures FindsOnlyEmpty(Betraying(commit, paths), lines)
  {
    var n := |commit| + 1;
    forall l | l in lines && |l| >= n ensures Free(l[n..], NL) {
      assert forall i :: 0 <= i < |l[n..]| ==> l[n..][i] == l[n + i];
    }
  }

  lemma BetrayingReadsEmpty(commit: Bytes, paths: seq<Bytes>)
    requires Free(commit, NL)
    ensures
      var result := Decode(BatchOutput(Betraying(commit, paths), paths), paths, 0, 0, map[]);
      result.Ok? && AllEmpty(result.value)
  {
    var lines := Lines(Requests(commit, paths, 0));
    LinesAreFree(Requests(commit, paths, 0));
    BetrayingFindsOnlyEmpty(commit, paths, lines);
    AtLeastOneLineEach(commit, paths, 0);
    HoldsItself(BatchOutput(Betraying(commit, paths), paths));
    OnlyEmptyIsRead(BatchOutput(Betraying(commit, paths), paths), 0, Betraying(commit, paths), lines, paths, 0, map[]);
  }

  lemma EmptyIsWrong(commit: Bytes, paths: seq<Bytes>, result: Result<map<Bytes, Bytes>, Failure>)
    requires !NoNewlines(paths) && result.Ok? && AllEmpty(result.value)
    ensures !IsContents(Betraying(commit, paths), paths, result)
  {
    var i :| 0 <= i < |paths| && !Free(paths[i], NL);
    assert paths[i] in paths && Betraying(commit, paths).tree[paths[i]].content == "!";
  }

  /** With a newline in any path, some repository that has all of the paths is read wrongly. */
  lemma NewlinesAreReadWrongly(commit: Bytes, paths: seq<Bytes>)
    requires Free(commit, NL) && !NoNewlines(paths)
    ensures
      var repo := Betraying(commit, paths);
      && IsRepo(repo) && (forall p :: p in paths ==> p in repo.tree)
      && !IsContents(repo, paths, Decode(BatchOutput(repo, paths), paths, 0, 0, map[]))
  {
    var repo := Betraying(commit, paths);
    BetrayingReadsEmpty(commit, paths);
    EmptyIsWrong(commit, paths, Decode(BatchOutput(repo, paths), paths, 0, 0, map[]));
  }

  ghost predicate ReadsBack(repo: Repo, paths: seq<Bytes>) {
    IsRepo(repo) ==> IsContents(repo, paths, Decode(BatchOutput(repo, paths), paths, 0, 0, map[]))
  }

  /** The decoder reads every repository right exactly when no path has a newline in it; it makes no
      difference that all the paths come from the commit itself. */
  lemma RoundTripExactly(commit: Bytes, paths: seq<Bytes>)
    requires Free(commit, NL)
    ensures (forall repo: Repo :: repo.commit == commit ==> ReadsBack(repo, paths)) <==> NoNewlines(paths)
    ensures (forall repo: Repo :: repo.commit == commit && (forall p :: p in paths ==> p in repo.tree) ==> ReadsBack(repo, paths))
            <==> NoNewlines(paths)
  {
    if NoNewlines(paths) {
      forall repo: Repo | repo.commit == commit ensures ReadsBack(repo, paths) {
        if IsRepo(repo) {
          DecodeInvertsFraming(repo, paths);
        }
      }
    } else {
      NewlinesAreReadWrongly(commit, paths);
      assert !ReadsBack(Betraying(commit, paths), paths);
    }
  }

  lemma TwoLines(commit: Bytes, a: Bytes, b: Bytes, q: Bytes)
    requires Free(commit, NL) && Free(a, NL) && Free(b, NL) && Free(q, NL)
    ensures Lines(Requests(commit, [a + [NL] + b, q], 0)) == [Request(commit, a), b, Request(commit, q)]
  {
    var paths := [a + [NL] + b, q];
    var last := Request(commit, q) + [NL] + [];
    assert Requests(commit, paths, 2) == [] && Requests(commit, paths, 1) == last;
    assert Requests(commit, paths, 0) == Request(commit, a) + [NL] + (b + [NL] + last);
    FirstLine(Request(commit, a), b + [NL] + last);
    FirstLine(b, last);
    FirstLine(Request(commit, q), []);
  }

  /** How a newline does it: the path reaches git as two requests, and when neither half names anything, the
      reply to the second is read as the reply for the next path, whose own content is then lost. */
  lemma NewlinePathMisaligns(repo: Repo, a: Bytes, b: Bytes, q: Bytes)
    requires IsRepo(repo) && Free(a, NL) && Free(b, NL) && Free(q, NL)
    requires a !in repo.tree && Named(repo, b).None?
    ensures Decode(BatchOutput(repo, [a + [NL] + b, q]), [a + [NL] + b, q], 0, 0, map[]) == Ok(map[])
  {
    var paths, lines := [a + [NL] + b, q], [Request(repo.commit, a), b, Request(repo.commit, q)];
    TwoLines(repo.commit, a, b, q);
    RequestNames(repo, a);
    var out := BatchOutput(repo, paths);
    HoldsItself(out);
    var next := NextReply(out, 0, repo, lines);
    var after := NextReply(out, next, repo, lines[1..]);
    DecodeReply(out, paths, 0, 0, next, None, map[]);
    DecodeReply(out, paths, 1, next, after, None, map[]);
  }
}
