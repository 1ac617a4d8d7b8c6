/** The coin detector of the asynchronous composite's tests: three penny detectors, each
    answering its own coin and passing anything else on, inside a composite whose override of
    `HandleAsync` splits the input at spaces, runs the base chain on every piece and sums the
    results. */
module CoinExamples {
  import opened Handlers
  import Strategies
  import AsyncComposite

  /** A detector for one coin: the text it recognises and the value it answers. */
  datatype Coin = Coin(name: string, face: string, value: int)

  /** A penny handler: its own coin gives its value, anything else goes to `next`. */
  function Penny(c: Coin): Handler<string, int>
  {
    Leaf(c.name, (x: string, n: Option<Continuation<string, int>>) => if x == c.face then Ok(c.value) else Call(n, x))
  }

  function Detectors(cs: seq<Coin>): (hs: seq<Handler<string, int>>)
    ensures |hs| == |cs| && forall i :: 0 <= i < |cs| ==> hs[i] == Penny(cs[i])
  {
    seq(|cs|, i requires 0 <= i < |cs| => Penny(cs[i]))
  }

  /** `string.Split(sep)`: the pieces between separators, empty ones included. */
  function Split(s: string, sep: char): (ps: seq<string>)
    ensures |ps| > 0
    ensures forall i :: 0 <= i < |ps| ==> sep !in ps[i]
    decreases |s|
  {
    if |s| == 0 then [""]
    else
      var rest := Split(s[1..], sep);
      if s[0] == sep then [""] + rest else [[s[0]] + rest[0]] + rest[1..]
  }

  /** The pieces joined back with the separator between them. */
  function Join(ps: seq<string>, sep: char): string
    requires |ps| > 0
  {
    if |ps| == 1 then ps[0] else ps[0] + [sep] + Join(ps[1..], sep)
  }

  /** Splitting loses nothing: joining the pieces gives the input back. */
  lemma {:induction false} SplitJoin(s: string, sep: char)
    ensures Join(Split(s, sep), sep) == s
    decreases |s|
  {
    if |s| > 0 {
      var rest := Split(s[1..], sep);
      SplitJoin(s[1..], sep);
      if s[0] == sep {
        assert ([""] + rest)[1..] == rest;
      } else {
        var ps := [[s[0]] + rest[0]] + rest[1..];
        if |rest| == 1 {
          assert ps == [[s[0]] + rest[0]];
        } else {
          assert ps[1..] == rest[1..];
          assert Join(rest, sep) == rest[0] + [sep] + Join(rest[1..], sep);
        }
      }
    }
  }

  /** `await Task.WhenAll(...)` over the pieces followed by `Sum()`: the first failure in order if
      any piece fails, otherwise the sum of the answers. */
  function DetectAll(base: HandleFn<string, int>, pieces: seq<string>, n: Option<Continuation<string, int>>): (r: Res<int>)
    ensures r.Ok? <==> forall i :: 0 <= i < |pieces| ==> base(pieces[i], n).Ok?
    ensures |pieces| > 0 && !base(pieces[0], n).Ok? ==> r == base(pieces[0], n)
    decreases |pieces|
  {
    if |pieces| == 0 then Ok(0)
    else
      var first := base(pieces[0], n);
      if !first.Ok? then first
      else
        var rest := DetectAll(base, pieces[1..], n);
        if !rest.Ok? then rest else Ok(first.value + rest.value)
  }

  /** The override of `HandleAsync` the detector declares. */
  function DetectEach(): Around<string, int>
  {
    (base: HandleFn<string, int>, x: string, n: Option<Continuation<string, int>>) => DetectAll(base, Split(x, ' '), n)
  }

  function UkCoins(): seq<Coin>
  {
    [Coin("OnePennyHandler", "1", 1), Coin("TwoPennyHandler", "2", 2), Coin("FivePennyHandler", "5", 5)]
  }

  function CoinDetector(): Handler<string, int>
  {
    Composite("CoinDetector", Detectors(UkCoins()), Some(DetectEach()))
  }

  /** A penny handler passes on every other input. */
  lemma PennyForwards(c: Coin, x: string)
    requires x != c.face
    ensures Forwards(Eval(Penny(c)), x)
  {
    forall k: Continuation<string, int> ensures Eval(Penny(c))(x, Some(k)) == k(x) {
    }
  }

  /** A penny handler answers its own coin whatever `next` is. */
  lemma PennyAnswers(c: Coin)
    ensures AnswersAt(Eval(Penny(c)), c.face)
    ensures Eval(Penny(c))(c.face, None) == Ok(c.value)
  {
  }

  /** A chain of detectors answers the first detector whose coin the input is. */
  lemma DetectsFirstMatch(cs: seq<Coin>, j: nat, x: string, next: Option<Continuation<string, int>>)
    requires j < |cs| && cs[j].face == x
    requires forall m :: 0 <= m < j ==> cs[m].face != x
    ensures ChainHandle(Evals(Detectors(cs)), x, next) == Ok(cs[j].value)
  {
    var fs := Evals(Detectors(cs));
    forall m | 0 <= m < j ensures Forwards(fs[m], x) {
      PennyForwards(cs[m], x);
    }
    PennyAnswers(cs[j]);
    FirstHandlerWins(fs, j, x, next);
  }

  /** A coin no detector knows falls through to the throwing continuation. */
  lemma RejectsUnknown(cs: seq<Coin>, x: string)
    requires forall m :: 0 <= m < |cs| ==> cs[m].face != x
    ensures ChainHandle(Evals(Detectors(cs)), x, None) == NotSupported
  {
    var fs := Evals(Detectors(cs));
    forall m | 0 <= m < |fs| ensures Forwards(fs[m], x) {
      PennyForwards(cs[m], x);
    }
    FallThrough(fs, x, None);
  }

  lemma SplitOne(c: char, sep: char)
    requires c != sep
    ensures Split([c], sep) == [[c]]
  {
    assert [c][1..] == [];
    assert Split([], sep) == [""];
    assert [c] + "" == [c];
  }

  /** One character in front of a string: a separator starts a new piece, anything else joins
      the first piece. */
  lemma SplitCons(c: char, s: string, sep: char)
    ensures c == sep ==> Split([c] + s, sep) == [""] + Split(s, sep)
    ensures c != sep ==> Split([c] + s, sep) == [[c] + Split(s, sep)[0]] + Split(s, sep)[1..]
  {
    assert ([c] + s)[1..] == s;
  }

  /** A detector runs its override around the base chain of its children. */
  lemma DetectorRuns(name: string, hs: seq<Handler<string, int>>, x: string, n: Option<Continuation<string, int>>)
    ensures Eval(Composite(name, hs, Some(DetectEach())))(x, n) == DetectAll(BaseHandle(Evals(hs)), Split(x, ' '), n)
  {
  }

  lemma DetectOne(base: HandleFn<string, int>, x: string, n: Option<Continuation<string, int>>)
    ensures DetectAll(base, [x], n) == base(x, n)
  {
    assert [x][1..] == [];
  }

  /** A detector's answer to a single coin is its base chain's answer. */
  lemma SingleCoin(name: string, hs: seq<Handler<string, int>>, x: string)
    requires |x| == 1 && x[0] != ' '
    ensures Eval(Composite(name, hs, Some(DetectEach())))(x, None) == ChainHandle(Evals(hs), x, None)
  {
    DetectorRuns(name, hs, x, None);
    SplitOne(x[0], ' ');
    assert [x[0]] == x;
    DetectOne(BaseHandle(Evals(hs)), x, None);
  }

  /** Each of "1", "2" and "5" is detected as its own value. */
  lemma DetectsSingleCoin(j: nat)
    requires j < 3
    ensures Eval(CoinDetector())(UkCoins()[j].face, None) == Ok(UkCoins()[j].value)
  {
    var cs := UkCoins();
    SingleCoin("CoinDetector", Detectors(cs), cs[j].face);
    DetectsFirstMatch(cs, j, cs[j].face, None);
  }

  /** "3" is no coin: the detector throws NotSupportedException. */
  lemma UnknownCoinThrows()
    ensures Eval(CoinDetector())("3", None) == NotSupported
  {
    var cs := UkCoins();
    SingleCoin("CoinDetector", Detectors(cs), "3");
    RejectsUnknown(cs, "3");
  }

  lemma SplitCoins()
    ensures Split("1 2 5", ' ') == ["1", "2", "5"]
  {
    SplitOne('5', ' ');
    assert ['5'] == "5";
    SplitCons(' ', "5", ' ');
    assert [' '] + "5" == " 5";
    assert Split(" 5", ' ') == ["", "5"];
    SplitCons('2', " 5", ' ');
    assert ['2'] + " 5" == "2 5";
    assert ['2'] + "" == "2";
    assert Split("2 5", ' ') == ["2", "5"];
    SplitCons(' ', "2 5", ' ');
    assert [' '] + "2 5" == " 2 5";
    assert Split(" 2 5", ' ') == ["", "2", "5"];
    SplitCons('1', " 2 5", ' ');
    assert ['1'] + " 2 5" == "1 2 5";
    assert ['1'] + "" == "1";
  }

  /** Three coins detected one by one are summed. */
  lemma DetectThree(base: HandleFn<string, int>, a: string, b: string, c: string, n: Option<Continuation<string, int>>, va: int, vb: int, vc: int)
    requires base(a, n) == Ok(va) && base(b, n) == Ok(vb) && base(c, n) == Ok(vc)
    ensures DetectAll(base, [a, b, c], n) == Ok(va + vb + vc)
  {
    var ps := [a, b, c];
    assert ps[1..] == [b, c] && ps[1..][1..] == [c] && ps[1..][1..][1..] == [];
    assert DetectAll(base, [c], n) == Ok(vc);
    assert DetectAll(base, [b, c], n) == Ok(vb + vc);
  }

  /** "1 2 5" is split into three coins, detected one by one and summed to 8. */
  lemma DetectsThreeCoins()
    ensures Eval(CoinDetector())("1 2 5", None) == Ok(8)
  {
    var cs := UkCoins();
    var base := BaseHandle(Evals(Detectors(cs)));
    assert base("1", None) == Ok(1) by { DetectsFirstMatch(cs, 0, "1", None); }
    assert base("2", None) == Ok(2) by { DetectsFirstMatch(cs, 1, "2", None); }
    assert base("5", None) == Ok(5) by { DetectsFirstMatch(cs, 2, "5", None); }
    DetectThree(base, "1", "2", "5", None, 1, 2, 5);
    SplitCoins();
    DetectorRuns("CoinDetector", Detectors(cs), "1 2 5", None);
  }

  /** The test's own object: a composite subclass whose override of `HandleAsync` runs, with
      the three penny handlers added under the no-op strategy, answers 8 for "1 2 5". */
  method CoinDetectorScenario() returns (r: Res<int>)
    ensures r == Ok(8)
  {
    var holder := new Strategies.StrategyHolder<string, int>();
    var detector := new AsyncComposite.AsyncCompositeHandler<string, int>("CoinDetector", None, holder, Some(DetectEach()));
    var cs := UkCoins();
    var _ := detector.AddHandler(Some(Penny(cs[0])));
    var _ := detector.AddHandler(Some(Penny(cs[1])));
    var _ := detector.AddHandler(Some(Penny(cs[2])));
    assert detector.handlers == Detectors(cs);
    r := detector.HandleAsync("1 2 5", None);
    DetectsThreeCoins();
  }
}
