/**
 * The credential loop of `main`: every (username, password) pair is tried
 * against the connection oracle, usernames in the outer loop and passwords
 * in the inner one; each success is appended to the output file as a
 * `Found:` line, and with `-f` the loop stops after the first success.
 */
module Prober {
  /** One (username, password) pair handed to `connect`. */
  datatype Credential = Credential(username: string, password: string)

  /**
   * `connect(target, port, username, password, verbose)` for a fixed target,
   * port and verbosity: whether the FTP connection and login succeed.
   */
  type Oracle = (string, string) -> bool

  predicate Succeeds(connect: Oracle, c: Credential)
  {
    connect(c.username, c.password)
  }

  /** The inner loop's pairs: one username with every password, in order. */
  function Row(u: string, ps: seq<string>): seq<Credential>
  {
    seq(|ps|, k requires 0 <= k < |ps| => Credential(u, ps[k]))
  }

  /** Every pair of the two lists, usernames outer and passwords inner. */
  function Product(us: seq<string>, ps: seq<string>): seq<Credential>
  {
    if us == [] then [] else Product(us[..|us| - 1], ps) + Row(us[|us| - 1], ps)
  }

  /**
   * `Product` is the cartesian product in the loops' order: it has one entry
   * per pair, and pair (i, j) sits at position i * |ps| + j.
   */
  lemma {:induction false} ProductAt(us: seq<string>, ps: seq<string>, i: nat, j: nat)
    requires i < |us| && j < |ps|
    ensures |Product(us, ps)| == |us| * |ps|
    ensures i * |ps| + j < |us| * |ps|
    ensures Product(us, ps)[i * |ps| + j] == Credential(us[i], ps[j])
  {
    var n := |us| - 1;
    var front := us[..n];
    ProductLength(front, ps);
    assert n * |ps| + |ps| == |us| * |ps|;
    if i < n {
      ProductAt(front, ps, i, j);
      assert (i + 1) * |ps| <= n * |ps| by { MulMono(i + 1, n, |ps|); }
      assert Product(us, ps)[i * |ps| + j] == Product(front, ps)[i * |ps| + j];
    } else {
      assert Product(us, ps)[i * |ps| + j] == Row(us[n], ps)[j];
    }
  }

  lemma MulMono(a: nat, b: nat, c: nat)
    requires a <= b
    ensures a * c <= b * c
  {
  }

  lemma {:induction false} ProductLength(us: seq<string>, ps: seq<string>)
    ensures |Product(us, ps)| == |us| * |ps|
  {
    if us != [] {
      ProductLength(us[..|us| - 1], ps);
      assert (|us| - 1) * |ps| + |ps| == |us| * |ps|;
    }
  }

  /** Taking one more username extends the product by that username's row. */
  lemma ProductSnoc(us: seq<string>, ps: seq<string>, i: nat)
    requires i < |us|
    ensures Product(us[..i + 1], ps) == Product(us[..i], ps) + Row(us[i], ps)
  {
    assert us[..i + 1][..i] == us[..i];
  }

  /** The pairs of the first `i` usernames come first in the whole product. */
  lemma {:induction false} ProductPrefix(us: seq<string>, ps: seq<string>, i: nat)
    requires i <= |us|
    ensures Product(us[..i], ps) <= Product(us, ps)
    decreases |us| - i
  {
    if i < |us| {
      ProductPrefix(us, ps, i + 1);
      ProductSnoc(us, ps, i);
    } else {
      assert us[..i] == us;
    }
  }

  predicate NoneSucceed(xs: seq<Credential>, connect: Oracle)
  {
    forall k :: 0 <= k < |xs| ==> !Succeeds(connect, xs[k])
  }

  /**
   * The pairs tried with `-f`: a prefix of `xs` in which nothing before the
   * last pair succeeds, and which either ends at a pair that succeeds or,
   * when none does, is all of `xs`.
   */
  function UntilFirst(xs: seq<Credential>, connect: Oracle): (r: seq<Credential>)
    ensures r <= xs
    ensures r != [] ==> NoneSucceed(r[..|r| - 1], connect)
    ensures NoneSucceed(xs, connect) ==> r == xs
    ensures !NoneSucceed(xs, connect) ==> r != [] && Succeeds(connect, r[|r| - 1])
  {
    if xs == [] then []
    else if Succeeds(connect, xs[0]) then [xs[0]]
    else
      assert NoneSucceed(xs[1..], connect) ==> NoneSucceed(xs, connect) by {
        if NoneSucceed(xs[1..], connect) {
          forall k | 1 <= k < |xs| ensures !Succeeds(connect, xs[k]) {
            assert xs[k] == xs[1..][k - 1];
          }
        }
      }
      var tail := UntilFirst(xs[1..], connect);
      var r := [xs[0]] + tail;
      assert tail != [] ==> r[..|r| - 1] == [xs[0]] + tail[..|tail| - 1];
      r
  }

  /**
   * The prefix `UntilFirst`'s contract describes is the only one: any prefix
   * that ends at a success and has none before it is `UntilFirst`.
   */
  lemma {:induction false} UntilFirstUnique(xs: seq<Credential>, p: seq<Credential>, connect: Oracle)
    requires p <= xs && p != []
    requires NoneSucceed(p[..|p| - 1], connect)
    requires Succeeds(connect, p[|p| - 1])
    ensures UntilFirst(xs, connect) == p
  {
    if |p| > 1 {
      assert !Succeeds(connect, p[0]) by { assert p[..|p| - 1][0] == p[0]; }
      assert p[1..][..|p| - 2] == p[..|p| - 1][1..];
      UntilFirstUnique(xs[1..], p[1..], connect);
    }
  }

  /** The sequence of `connect` calls the loop makes. */
  function Attempted(us: seq<string>, ps: seq<string>, connect: Oracle, forcequit: bool): seq<Credential>
  {
    if forcequit then UntilFirst(Product(us, ps), connect) else Product(us, ps)
  }

  lemma SmallProduct()
    ensures Product(["a", "b"], ["x", "y"]) ==
      [Credential("a", "x"), Credential("a", "y"), Credential("b", "x"), Credential("b", "y")]
  {
    var us: seq<string> := ["a", "b"];
    var ps: seq<string> := ["x", "y"];
    assert us[..1] == ["a"] && us[..1][..0] == [];
    assert Row("a", ps) == [Credential("a", "x"), Credential("a", "y")];
    assert Row("b", ps) == [Credential("b", "x"), Credential("b", "y")];
    assert Product(["a"], ps) == Row("a", ps);
  }

  // Two usernames, two passwords and no valid pair: all four pairs, users outer.
  lemma ExhaustiveExample()
    ensures Attempted(["a", "b"], ["x", "y"], (u: string, p: string) => false, false) ==
      [Credential("a", "x"), Credential("a", "y"), Credential("b", "x"), Credential("b", "y")]
  {
    SmallProduct();
  }

  // With -f and (a, y) the only valid pair, the loop stops right after it.
  lemma EarlyStopExample()
    ensures Attempted(["a", "b"], ["x", "y"], (u: string, p: string) => u == "a" && p == "y", true) ==
      [Credential("a", "x"), Credential("a", "y")]
  {
    var connect: Oracle := (u: string, p: string) => u == "a" && p == "y";
    SmallProduct();
    var xs := Product(["a", "b"], ["x", "y"]);
    assert !Succeeds(connect, xs[0]) && Succeeds(connect, xs[1]);
    assert xs[1..][0] == xs[1];
  }

  /** The successful pairs among `xs`, in the order they were tried. */
  function Successes(xs: seq<Credential>, connect: Oracle): seq<Credential>
  {
    if xs == [] then []
    else
      var front := Successes(xs[..|xs| - 1], connect);
      var last := xs[|xs| - 1];
      if Succeeds(connect, last) then front + [last] else front
  }

  /** Discovery order: the successes of a concatenation are those of each part, in turn. */
  lemma {:induction false} SuccessesAppend(a: seq<Credential>, b: seq<Credential>, connect: Oracle)
    ensures Successes(a + b, connect) == Successes(a, connect) + Successes(b, connect)
  {
    if b == [] {
      assert a + b == a;
    } else {
      var b' := b[..|b| - 1];
      assert (a + b)[..|a + b| - 1] == a + b';
      SuccessesAppend(a, b', connect);
    }
  }

  /** Only pairs that logged in are recorded, and no more of them than were tried. */
  lemma {:induction false} SuccessesSound(xs: seq<Credential>, connect: Oracle)
    ensures |Successes(xs, connect)| <= |xs|
    ensures forall k :: 0 <= k < |Successes(xs, connect)| ==> Succeeds(connect, Successes(xs, connect)[k])
  {
    if xs != [] {
      SuccessesSound(xs[..|xs| - 1], connect);
    }
  }

  /** Every successful pair tried appears among the successes. */
  lemma {:induction false} SuccessesComplete(xs: seq<Credential>, connect: Oracle, k: nat)
    requires k < |xs| && Succeeds(connect, xs[k])
    ensures xs[k] in Successes(xs, connect)
  {
    if k < |xs| - 1 {
      assert xs[..|xs| - 1][k] == xs[k];
      SuccessesComplete(xs[..|xs| - 1], connect, k);
    }
  }

  /** Each recorded success is one of the pairs tried. */
  lemma {:induction false} SuccessesIn(xs: seq<Credential>, connect: Oracle, k: nat)
    requires k < |Successes(xs, connect)|
    ensures Successes(xs, connect)[k] in xs
  {
    var front := xs[..|xs| - 1];
    SuccessesSound(front, connect);
    if k < |Successes(front, connect)| {
      SuccessesIn(front, connect, k);
      assert Successes(front, connect)[k] in front;
    }
  }

  /** When no attempt succeeds, nothing is recorded. */
  lemma {:induction false} SuccessesEmpty(xs: seq<Credential>, connect: Oracle)
    requires NoneSucceed(xs, connect)
    ensures Successes(xs, connect) == []
  {
    if xs != [] {
      SuccessesEmpty(xs[..|xs| - 1], connect);
    }
  }

  /** The line written to the output file for a pair that logs in. */
  function FoundLine(c: Credential): string
  {
    "Found: " + c.username + " - " + c.password
  }

  function FoundLines(cs: seq<Credential>): seq<string>
  {
    seq(|cs|, k requires 0 <= k < |cs| => FoundLine(cs[k]))
  }

  /** The output file: an append-only sequence of lines, open until closed. */
  class Sink {
    var lines: seq<string>
    var isOpen: bool

    /** `open(path, 'w+')`: a fresh, empty file. */
    constructor ()
      ensures lines == [] && isOpen
    {
      lines := [];
      isOpen := true;
    }

    /** `outfile.write(line + '\n')` followed by `flush()`. */
    method Write(line: string)
      requires isOpen
      modifies this
      ensures lines == old(lines) + [line] && isOpen
    {
      lines := lines + [line];
    }

    method Close()
      requires isOpen
      modifies this
      ensures lines == old(lines) && !isOpen
    {
      isOpen := false;
    }
  }

  /**
   * The nested loop of `main`. It returns the pairs passed to `connect`, in
   * call order, and appends one `Found:` line per success to the sink.
   */
  method Probe(us: seq<string>, ps: seq<string>, connect: Oracle, forcequit: bool, sink: Sink?)
    returns (attempts: seq<Credential>)
    requires sink != null ==> sink.isOpen
    modifies sink
    ensures attempts == Attempted(us, ps, connect, forcequit)
    ensures sink != null ==>
      sink.isOpen && sink.lines == old(sink.lines) + FoundLines(Successes(attempts, connect))
  {
    attempts := [];
    var success := false;
    var i := 0;
    while i < |us|
      invariant 0 <= i <= |us|
      invariant attempts == Product(us[..i], ps)
      invariant forcequit ==> !success && NoneSucceed(attempts, connect)
      invariant sink != null ==> sink.isOpen
      invariant sink != null ==> sink.lines == old(sink.lines) + FoundLines(Successes(attempts, connect))
    {
      ghost var logged := if sink != null then sink.lines else [];
      var tried;
      tried, success := TryPasswords(us[i], ps, connect, forcequit, sink);
      LogAppend(attempts, tried, connect);
      if sink != null {
        assert sink.lines == logged + FoundLines(Successes(tried, connect));
        assert sink.lines == old(sink.lines) + FoundLines(Successes(attempts + tried, connect));
      }
      ProductSnoc(us, ps, i);
      if success && forcequit {
        StopAtFirst(us, ps, connect, i, attempts, tried);
        attempts := attempts + tried;
        break;
      }
      if forcequit {
        NoneSucceedAppend(attempts, tried, connect);
      }
      attempts := attempts + tried;
      i := i + 1;
    }
    if !forcequit || !success {
      assert us[..i] == us;
    }
  }

  /**
   * The inner loop: one username with each password in turn. With `-f` it
   * stops at the first success, and `success` then tells whether it did.
   */
  method TryPasswords(u: string, ps: seq<string>, connect: Oracle, forcequit: bool, sink: Sink?)
    returns (tried: seq<Credential>, success: bool)
    requires sink != null ==> sink.isOpen
    modifies sink
    ensures tried == (if forcequit then UntilFirst(Row(u, ps), connect) else Row(u, ps))
    ensures forcequit ==> (success <==> !NoneSucceed(Row(u, ps), connect))
    ensures sink != null ==>
      sink.isOpen && sink.lines == old(sink.lines) + FoundLines(Successes(tried, connect))
  {
    tried := [];
    success := false;
    var j := 0;
    while j < |ps|
      invariant 0 <= j <= |ps|
      invariant tried == Row(u, ps[..j])
      invariant forcequit ==> !success && NoneSucceed(tried, connect)
      invariant sink != null ==>
        sink.isOpen && sink.lines == old(sink.lines) + FoundLines(Successes(tried, connect))
    {
      success := connect(u, ps[j]);
      var c := Credential(u, ps[j]);
      assert success == Succeeds(connect, c);
      RowSnoc(u, ps, j);
      LogStep(tried, c, connect);
      if forcequit && !success {
        NoneSucceedAppend(tried, [c], connect);
      }
      tried := tried + [c];
      if success {
        if sink != null {
          sink.Write(FoundLine(c));
        }
        if forcequit {
          RowStop(u, ps, j, connect);
          break;
        }
      }
      j := j + 1;
    }
    if !forcequit || !success {
      assert ps[..j] == ps;
      assert tried == Row(u, ps);
    }
  }

  lemma RowSnoc(u: string, ps: seq<string>, j: nat)
    requires j < |ps|
    ensures Row(u, ps[..j + 1]) == Row(u, ps[..j]) + [Credential(u, ps[j])]
  {
  }

  /** One more attempt adds its `Found:` line exactly when it succeeds. */
  lemma LogStep(attempts: seq<Credential>, c: Credential, connect: Oracle)
    ensures FoundLines(Successes(attempts + [c], connect)) ==
      FoundLines(Successes(attempts, connect)) + (if Succeeds(connect, c) then [FoundLine(c)] else [])
  {
    SuccessesSnoc(attempts, c, connect);
    var found := Successes(attempts, connect);
    if Succeeds(connect, c) {
      FoundLinesAppend(found, [c]);
      assert FoundLines([c]) == [FoundLine(c)];
    } else {
      assert found + [] == found;
    }
  }

  lemma SuccessesSnoc(attempts: seq<Credential>, c: Credential, connect: Oracle)
    ensures Successes(attempts + [c], connect) ==
      Successes(attempts, connect) + (if Succeeds(connect, c) then [c] else [])
  {
    var s := attempts + [c];
    assert s[..|s| - 1] == attempts;
  }

  lemma FoundLinesAppend(a: seq<Credential>, b: seq<Credential>)
    ensures FoundLines(a + b) == FoundLines(a) + FoundLines(b)
  {
  }

  /** A row cut at its first success is that row's `UntilFirst`. */
  lemma RowStop(u: string, ps: seq<string>, j: nat, connect: Oracle)
    requires j < |ps|
    requires NoneSucceed(Row(u, ps[..j]), connect) && connect(u, ps[j])
    ensures UntilFirst(Row(u, ps), connect) == Row(u, ps[..j + 1])
    ensures !NoneSucceed(Row(u, ps), connect)
  {
    var p := Row(u, ps[..j + 1]);
    RowSnoc(u, ps, j);
    assert p[..|p| - 1] == Row(u, ps[..j]);
    assert p <= Row(u, ps);
    UntilFirstUnique(Row(u, ps), p, connect);
    assert Row(u, ps)[j] == Credential(u, ps[j]);
  }

  lemma LogAppend(a: seq<Credential>, b: seq<Credential>, connect: Oracle)
    ensures FoundLines(Successes(a + b, connect)) ==
      FoundLines(Successes(a, connect)) + FoundLines(Successes(b, connect))
  {
    SuccessesAppend(a, b, connect);
    FoundLinesAppend(Successes(a, connect), Successes(b, connect));
  }

  lemma NoneSucceedAppend(a: seq<Credential>, b: seq<Credential>, connect: Oracle)
    requires NoneSucceed(a, connect) && NoneSucceed(b, connect)
    ensures NoneSucceed(a + b, connect)
  {
    assert forall k :: |a| <= k < |a + b| ==> (a + b)[k] == b[k - |a|];
  }

  /**
   * When the row of username `i` stops at a success with `-f`, after a run of
   * earlier rows with no success, what has been tried is exactly `Attempted`.
   */
  lemma StopAtFirst(us: seq<string>, ps: seq<string>, connect: Oracle, i: nat,
                    before: seq<Credential>, tried: seq<Credential>)
    requires i < |us|
    requires before == Product(us[..i], ps) && NoneSucceed(before, connect)
    requires tried == UntilFirst(Row(us[i], ps), connect)
    requires !NoneSucceed(Row(us[i], ps), connect)
    ensures before + tried == Attempted(us, ps, connect, true)
  {
    var p := before + tried;
    assert tried != [] && Succeeds(connect, tried[|tried| - 1]);
    assert p[|p| - 1] == tried[|tried| - 1];
    assert p[..|p| - 1] == before + tried[..|tried| - 1];
    NoneSucceedAppend(before, tried[..|tried| - 1], connect);
    PrefixOfProduct(us, ps, i, tried);
    UntilFirstUnique(Product(us, ps), p, connect);
  }

  /** The rows before username `i`, then a prefix of its row, come first in the product. */
  lemma PrefixOfProduct(us: seq<string>, ps: seq<string>, i: nat, part: seq<Credential>)
    requires i < |us| && part <= Row(us[i], ps)
    ensures Product(us[..i], ps) + part <= Product(us, ps)
  {
    ProductSnoc(us, ps, i);
    ProductPrefix(us, ps, i + 1);
    var whole := Product(us[..i], ps) + Row(us[i], ps);
    assert (Product(us[..i], ps) + part) <= whole by {
      assert whole[..|Product(us[..i], ps)| + |part|] == Product(us[..i], ps) + part;
    }
  }
}
