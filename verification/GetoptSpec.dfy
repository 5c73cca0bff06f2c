/** What a complete PERMUTE scan of an argument vector means, read off the
    original vector from left to right in one pass. */
module GetoptSpec {
  import opened Basics

  /** What the option string says about a character. */
  datatype Kind = Bad | Flag | Required | Optional

  /** One answer of the scanner. */
  datatype Answer = Eof | Opt(c: char, arg: Option<string>)

  /** The text of `str` from the first `c` on. */
  function Index(str: string, c: char): (r: Option<string>)
    ensures r.Some? ==> r.value != "" && r.value[0] == c
    ensures r.None? <==> c !in str
  {
    if str == "" then None
    else if str[0] == c then Some(str)
    else Index(str[1..], c)
  }

  const BAD_OPTION: char := '\0'

  function KindOf(opts: string, c: char): Kind {
    var temp := Index(opts, c);
    if temp.None? || c == ':' then Bad
    else if |temp.value| > 1 && temp.value[1] == ':' then
      if |temp.value| > 2 && temp.value[2] == ':' then Optional else Required
    else Flag
  }

  /** The element is not an option: it does not begin with '-', or is just "-". */
  predicate IsNonOption(arg: string) {
    |arg| < 2 || arg[0] != '-'
  }

  /** Whether the option letters of a cluster end in one that wants the next element as its argument. */
  function TakesNext(opts: string, cluster: string): bool {
    if cluster == "" then false
    else
      match KindOf(opts, cluster[0])
      case Required => |cluster| == 1
      case Optional => false
      case _ => TakesNext(opts, cluster[1..])
  }

  /** How many elements the cluster at the front of `args` uses up. */
  function Used(opts: string, cluster: string, args: seq<string>): (n: nat)
    requires args != []
    ensures 1 <= n <= |args|
  {
    if |args| > 1 && TakesNext(opts, cluster) then 2 else 1
  }

  /** `options` holds the option elements with their arguments and any "--";
      `tail` is what follows the "--". */
  datatype Split = Split(options: seq<string>, nonoptions: seq<string>, tail: seq<string>) {
    function Flat(): seq<string> {
      options + nonoptions + tail
    }
  }

  function Partition(opts: string, args: seq<string>): Split
    decreases |args|, 1
  {
    if args == [] then Split([], [], [])
    else if args[0] == "--" then Split(["--"], [], args[1..])
    else if IsNonOption(args[0]) then
      var s := Partition(opts, args[1..]);
      s.(nonoptions := [args[0]] + s.nonoptions)
    else
      ClusterSplit(opts, args[0][1..], args)
  }

  /** As Partition, but the scan stands inside the first element, before `cluster`. */
  function ClusterSplit(opts: string, cluster: string, args: seq<string>): Split
    requires args != []
    decreases |args|, 0
  {
    var n := Used(opts, cluster, args);
    var s := Partition(opts, args[n..]);
    s.(options := args[..n] + s.options)
  }

  /** The answers of the scan: one for each option letter. */
  function Answers(opts: string, args: seq<string>): seq<Answer>
    decreases |args|, 1, 0
  {
    if args == [] || args[0] == "--" then []
    else if IsNonOption(args[0]) then Answers(opts, args[1..])
    else ClusterAnswers(opts, args[0][1..], args)
  }

  function Missing(opts: string, c: char): Answer {
    Opt(if opts != "" && opts[0] == ':' then ':' else BAD_OPTION, None)
  }

  function ClusterAnswers(opts: string, cluster: string, args: seq<string>): seq<Answer>
    requires args != []
    decreases |args|, 0, |cluster|
  {
    if cluster == "" then Answers(opts, args[1..])
    else
      var c, rest := cluster[0], cluster[1..];
      match KindOf(opts, c)
      case Bad => [Opt(BAD_OPTION, None)] + ClusterAnswers(opts, rest, args)
      case Flag => [Opt(c, None)] + ClusterAnswers(opts, rest, args)
      case Optional => [Opt(c, if rest == "" then None else Some(rest))] + Answers(opts, args[1..])
      case Required =>
        if rest != "" then [Opt(c, Some(rest))] + Answers(opts, args[1..])
        else if |args| == 1 then [Missing(opts, c)]
        else [Opt(c, Some(args[1]))] + Answers(opts, args[2..])
  }

  // ----- what the answers are, read off the option string itself

  /** The first place of c in the option string. */
  ghost predicate FirstPlace(opts: string, c: char, i: nat) {
    i < |opts| && opts[i] == c && forall j :: 0 <= j < i ==> opts[j] != c
  }

  predicate ColonAt(opts: string, i: nat) {
    i < |opts| && opts[i] == ':'
  }

  /** c is not an option letter: the option string does not list it, or it is the colon. */
  ghost predicate Unlisted(opts: string, c: char) {
    c == ':' || forall i :: 0 <= i < |opts| ==> opts[i] != c
  }

  lemma {:induction false} IndexIs(opts: string, c: char, i: nat)
    requires FirstPlace(opts, c, i)
    ensures Index(opts, c) == Some(opts[i..])
  {
    if i > 0 {
      assert forall j :: 0 <= j < i - 1 ==> opts[1..][j] == opts[j + 1];
      IndexIs(opts[1..], c, i - 1);
      assert opts[1..][i - 1..] == opts[i..];
    }
  }

  /** A letter followed by no colon takes no argument, one colon asks for one, two allow one. */
  lemma KindIs(opts: string, c: char, i: nat)
    requires FirstPlace(opts, c, i) && c != ':'
    ensures KindOf(opts, c) == Flag <==> !ColonAt(opts, i + 1)
    ensures KindOf(opts, c) == Required <==> ColonAt(opts, i + 1) && !ColonAt(opts, i + 2)
    ensures KindOf(opts, c) == Optional <==> ColonAt(opts, i + 1) && ColonAt(opts, i + 2)
  {
    IndexIs(opts, c, i);
  }

  lemma BadIs(opts: string, c: char)
    ensures KindOf(opts, c) == Bad <==> Unlisted(opts, c)
  {
    if c in opts && c != ':' {
      var i := PlaceOf(opts, c);
      KindIs(opts, c, i);
      assert opts[i] == c;
    }
  }

  lemma {:induction false} PlaceOf(opts: string, c: char) returns (i: nat)
    requires c in opts
    ensures FirstPlace(opts, c, i)
  {
    if opts[0] == c {
      i := 0;
    } else {
      var j := PlaceOf(opts[1..], c);
      i := j + 1;
      assert forall k :: 0 < k < i ==> opts[k] == opts[1..][k - 1];
    }
  }

  /** An element is passed over, ends the scan, or has its letters answered one by one. */
  lemma ElementAnswers(opts: string, args: seq<string>)
    ensures args == [] || args[0] == "--" ==> Answers(opts, args) == []
    ensures args != [] && args[0] != "--" && (|args[0]| < 2 || args[0][0] != '-') ==> Answers(opts, args) == Answers(opts, args[1..])
    ensures args != [] && args[0] != "--" && |args[0]| >= 2 && args[0][0] == '-' ==>
              Answers(opts, args) == ClusterAnswers(opts, args[0][1..], args)
    ensures args != [] ==> ClusterAnswers(opts, "", args) == Answers(opts, args[1..])
  {
  }

  /** A letter that is not listed gets a bad answer, and the scan goes on with the next letter. */
  lemma UnlistedAnswer(opts: string, cluster: string, args: seq<string>)
    requires cluster != "" && args != [] && Unlisted(opts, cluster[0])
    ensures ClusterAnswers(opts, cluster, args) == [Opt('\0', None)] + ClusterAnswers(opts, cluster[1..], args)
  {
    BadIs(opts, cluster[0]);
  }

  /** A listed letter is answered by itself, with its argument: the rest of its element, or the next element if one is
      required; only if that is missing the answer is another one. */
  lemma ListedAnswer(opts: string, cluster: string, args: seq<string>, i: nat)
    requires cluster != "" && args != [] && FirstPlace(opts, cluster[0], i) && cluster[0] != ':'
    ensures var c, rest, one, two := cluster[0], cluster[1..], ColonAt(opts, i + 1), ColonAt(opts, i + 2);
            var r := ClusterAnswers(opts, cluster, args);
            && (!one ==> r == [Opt(c, None)] + ClusterAnswers(opts, rest, args))
            && (one && rest != "" ==> r == [Opt(c, Some(rest))] + Answers(opts, args[1..]))
            && (one && two && rest == "" ==> r == [Opt(c, None)] + Answers(opts, args[1..]))
            && (one && !two && rest == "" && |args| > 1 ==> r == [Opt(c, Some(args[1]))] + Answers(opts, args[2..]))
            && (one && !two && rest == "" && |args| == 1 ==> r == [Opt(if opts[0] == ':' then ':' else '\0', None)])
  {
    KindIs(opts, cluster[0], i);
  }

  /** The letter wants an argument: exactly one colon follows it. */
  ghost predicate WantsArgument(opts: string, c: char) {
    c != ':' && exists i: nat :: FirstPlace(opts, c, i) && ColonAt(opts, i + 1) && !ColonAt(opts, i + 2)
  }

  /** The letter cannot have an argument: it is not listed, or no colon follows it. */
  ghost predicate NoArgument(opts: string, c: char) {
    Unlisted(opts, c) || exists i: nat :: FirstPlace(opts, c, i) && !ColonAt(opts, i + 1)
  }

  lemma ArgumentIs(opts: string, c: char)
    ensures WantsArgument(opts, c) <==> KindOf(opts, c) == Required
    ensures NoArgument(opts, c) <==> KindOf(opts, c) == Flag || KindOf(opts, c) == Bad
  {
    BadIs(opts, c);
    if !Unlisted(opts, c) {
      var i := PlaceOf(opts, c);
      KindIs(opts, c, i);
      forall j: nat | FirstPlace(opts, c, j)
        ensures j == i
      {
      }
    }
  }

  /** An element takes the next one exactly if its last letter wants an argument and no letter before can have one. */
  lemma {:induction false} TakesNextIs(opts: string, cluster: string)
    ensures TakesNext(opts, cluster) <==>
              && cluster != "" && WantsArgument(opts, cluster[|cluster|-1])
              && forall j :: 0 <= j < |cluster| - 1 ==> NoArgument(opts, cluster[j])
  {
    if cluster != "" {
      TakesNextIs(opts, cluster[1..]);
      ArgumentIs(opts, cluster[0]);
      assert forall j :: 0 <= j < |cluster| - 1 ==> cluster[1..][j] == cluster[j + 1];
      if |cluster| > 1 {
        ShiftOne(opts, cluster);
      }
    }
  }

  lemma ShiftOne(opts: string, cluster: string)
    requires |cluster| > 1
    ensures (forall j :: 0 <= j < |cluster| - 1 ==> NoArgument(opts, cluster[j])) <==>
              NoArgument(opts, cluster[0]) && forall j :: 0 <= j < |cluster[1..]| - 1 ==> NoArgument(opts, cluster[1..][j])
  {
    if NoArgument(opts, cluster[0]) && forall j :: 0 <= j < |cluster[1..]| - 1 ==> NoArgument(opts, cluster[1..][j]) {
      forall j | 0 <= j < |cluster| - 1
        ensures NoArgument(opts, cluster[j])
      {
        assert j > 0 ==> cluster[j] == cluster[1..][j - 1];
      }
    }
  }

  /** Which elements an option takes to the front, and where the scan goes on. */
  lemma ElementSplit(opts: string, args: seq<string>)
    requires args != [] && args[0] != "--"
    ensures (|args[0]| < 2 || args[0][0] != '-') ==>
              var s := Partition(opts, args[1..]);
              Partition(opts, args) == Split(s.options, [args[0]] + s.nonoptions, s.tail)
    ensures (|args[0]| >= 2 && args[0][0] == '-') ==>
              var n := if |args| > 1 && TakesNext(opts, args[0][1..]) then 2 else 1;
              var s := Partition(opts, args[n..]);
              Partition(opts, args) == Split(args[..n] + s.options, s.nonoptions, s.tail)
  {
  }

  // ----- what Partition promises

  lemma FlatPermutes(s: Split, front: seq<string>, rest: seq<string>)
    requires multiset(s.Flat()) == multiset(rest)
    ensures multiset(s.(options := front + s.options).Flat()) == multiset(front + rest)
    ensures multiset(s.(nonoptions := front + s.nonoptions).Flat()) == multiset(front + rest)
  {
    FlatFront(s, front);
    var (o, n, t) := (multiset(s.options), multiset(s.nonoptions), multiset(s.tail));
    var f := multiset(front);
    assert multiset(s.(nonoptions := front + s.nonoptions).Flat()) == o + (f + n) + t;
    assert multiset(s.Flat()) == o + n + t;
    assert o + (f + n) + t == f + (o + n + t);
  }

  /** The permuted vector holds the same elements. */
  lemma {:induction false} PartitionPermutes(opts: string, args: seq<string>)
    ensures multiset(Partition(opts, args).Flat()) == multiset(args)
    decreases |args|
  {
    if args == [] {
    } else if args[0] == "--" {
      assert args == ["--"] + args[1..];
      assert Partition(opts, args).Flat() == ["--"] + args[1..];
    } else {
      var n := if IsNonOption(args[0]) then 1 else Used(opts, args[0][1..], args);
      PartitionPermutes(opts, args[n..]);
      FlatPermutes(Partition(opts, args[n..]), args[..n], args[n..]);
      assert args == args[..n] + args[n..];
      assert args[..1] == [args[0]];
    }
  }

  /** c is a shuffle of a and b that keeps the order inside each. */
  ghost predicate Interleaves(a: seq<string>, b: seq<string>, c: seq<string>)
    decreases |c|
  {
    if c == [] then a == [] && b == []
    else
      || (a != [] && a[0] == c[0] && Interleaves(a[1..], b, c[1..]))
      || (b != [] && b[0] == c[0] && Interleaves(a, b[1..], c[1..]))
  }

  lemma {:induction false} InterleavesPrefix(p: seq<string>, a: seq<string>, b: seq<string>, c: seq<string>)
    requires Interleaves(a, b, c)
    ensures Interleaves(p + a, b, p + c)
    decreases |p|
  {
    if p == [] {
      assert p + a == a && p + c == c;
    } else {
      InterleavesPrefix(p[1..], a, b, c);
      assert (p + a)[1..] == p[1..] + a && (p + c)[1..] == p[1..] + c;
    }
  }

  lemma {:induction false} InterleavesSwap(a: seq<string>, b: seq<string>, c: seq<string>)
    requires Interleaves(a, b, c)
    ensures Interleaves(b, a, c)
    decreases |c|
  {
    if c != [] {
      if a != [] && a[0] == c[0] && Interleaves(a[1..], b, c[1..]) {
        InterleavesSwap(a[1..], b, c[1..]);
      } else {
        InterleavesSwap(a, b[1..], c[1..]);
      }
    }
  }

  /** The options and the non-options of s each come in their order in args, whose end is the tail. */
  ghost predicate KeepsOrder(s: Split, args: seq<string>) {
    && |s.tail| <= |args| && s.tail == args[|args| - |s.tail|..]
    && Interleaves(s.options, s.nonoptions, args[..|args| - |s.tail|])
    && (s.tail != [] ==> s.options != [] && s.options[|s.options|-1] == "--")
  }

  /** Options (with their arguments) and non-options each keep their original order, and everything
      after "--" stays where it was. */
  lemma {:induction false} PartitionKeepsOrder(opts: string, args: seq<string>) returns (s: Split)
    ensures s == Partition(opts, args) && KeepsOrder(s, args)
    decreases |args|
  {
    if args == [] {
      s := Split([], [], []);
    } else if args[0] == "--" {
      s := Split(["--"], [], args[1..]);
      DashesKeepOrder(args);
    } else if IsNonOption(args[0]) {
      var rest := PartitionKeepsOrder(opts, args[1..]);
      s := rest.(nonoptions := [args[0]] + rest.nonoptions);
      FrontKeepsOrder(rest, args, 1);
    } else {
      var n := Used(opts, args[0][1..], args);
      var rest := PartitionKeepsOrder(opts, args[n..]);
      s := rest.(options := args[..n] + rest.options);
      FrontKeepsOrder(rest, args, n);
    }
  }

  lemma DashesKeepOrder(args: seq<string>)
    requires args != [] && args[0] == "--"
    ensures KeepsOrder(Split(["--"], [], args[1..]), args)
  {
    assert args[..1] == ["--"];
    assert Interleaves([], [], []);
  }

  lemma FrontKeepsOrder(s: Split, args: seq<string>, n: nat)
    requires 1 <= n <= |args| && KeepsOrder(s, args[n..])
    ensures KeepsOrder(s.(options := args[..n] + s.options), args)
    ensures n == 1 ==> KeepsOrder(s.(nonoptions := [args[0]] + s.nonoptions), args)
  {
    var m := |args| - |s.tail|;
    var mid := args[n..][..m - n];
    assert args[..m] == args[..n] + mid;
    InterleavesPrefix(args[..n], s.options, s.nonoptions, mid);
    InterleavesSwap(s.options, s.nonoptions, mid);
    InterleavesPrefix(args[..n], s.nonoptions, s.options, mid);
    InterleavesSwap(args[..n] + s.nonoptions, s.options, args[..m]);
    assert n == 1 ==> args[..n] == [args[0]];
  }

  /** The last option wants an argument and the vector ends before it. */
  predicate LacksArgument(opts: string, args: seq<string>)
    decreases |args|
  {
    if args == [] || args[0] == "--" then false
    else if IsNonOption(args[0]) then LacksArgument(opts, args[1..])
    else if |args| == 1 then TakesNext(opts, args[0][1..])
    else LacksArgument(opts, args[Used(opts, args[0][1..], args)..])
  }

  lemma {:induction false} NonOptionsStay(opts: string, args: seq<string>)
    requires forall i :: 0 <= i < |args| ==> IsNonOption(args[i])
    ensures Partition(opts, args) == Split([], args, [])
    decreases |args|
  {
    if args != [] {
      NonOptionsStay(opts, args[1..]);
      assert args == [args[0]] + args[1..];
    }
  }

  lemma {:induction false} PartitionNonOptions(opts: string, args: seq<string>)
    ensures forall i :: 0 <= i < |Partition(opts, args).nonoptions| ==> IsNonOption(Partition(opts, args).nonoptions[i])
    decreases |args|
  {
    if args != [] && args[0] != "--" {
      var n := if IsNonOption(args[0]) then 1 else Used(opts, args[0][1..], args);
      PartitionNonOptions(opts, args[n..]);
      var t := Partition(opts, args[n..]).nonoptions;
      assert Partition(opts, args).nonoptions == if IsNonOption(args[0]) then [args[0]] + t else t;
    }
  }

  /** Scanning a permuted vector again leaves it as it is; and it finds the same
      options unless the last one lacked an argument and there are non-options
      for it to take. */
  lemma {:induction false} PartitionAgain(opts: string, args: seq<string>)
    ensures var s := Partition(opts, args);
            var t := Partition(opts, s.Flat());
            && t.Flat() == s.Flat()
            && (|t.options| == |s.options| <==> !(LacksArgument(opts, args) && s.nonoptions != []))
    decreases |args|
  {
    var s := Partition(opts, args);
    PartitionNonOptions(opts, args);
    var again := PartitionAgainFrom(opts, args, s.nonoptions);
    assert again.options + s.nonoptions + again.tail == s.Flat();
  }

  /** With option string "a:", the arguments f -a become -a f: scanned again, -a takes the f it lacked before. */
  lemma SecondScanTakesArgument()
    ensures Partition("a:", ["f", "-a"]) == Split(["-a"], ["f"], [])
    ensures Partition("a:", ["-a", "f"]) == Split(["-a", "f"], [], [])
    ensures Answers("a:", ["f", "-a"]) == [Opt(BAD_OPTION, None)] && Answers("a:", ["-a", "f"]) == [Opt('a', Some("f"))]
  {
    var opts := "a:";
    assert Index(opts, 'a') == Some(opts) && KindOf(opts, 'a') == Required;
    assert "-a"[1..] == "a" && "a"[1..] == "";
    assert TakesNext(opts, "a");
    LoneElement(opts, ["-a"]);
    assert ["f", "-a"][1..] == ["-a"];
    var args := ["-a", "f"];
    assert Used(opts, "a", args) == 2 && args[..2] == args && args[2..] == [];
    assert ClusterAnswers(opts, "a", ["-a"]) == [Missing(opts, 'a')];
    assert ClusterAnswers(opts, "a", args) == [Opt('a', Some("f"))] + Answers(opts, args[2..]);
  }

  /** What a second scan makes of the options of a split, any non-options `more` and the tail. */
  ghost predicate Again(opts: string, s: Split, more: seq<string>, same: bool) {
    var flat := s.options + more + s.tail;
    var t := Partition(opts, flat);
    t.Flat() == flat && (|t.options| == |s.options| <==> same)
  }

  /** The options of `args` followed by any non-options `more` and the tail. */
  lemma {:induction false} PartitionAgainFrom(opts: string, args: seq<string>, more: seq<string>) returns (s: Split)
    requires forall i :: 0 <= i < |more| ==> IsNonOption(more[i])
    ensures s == Partition(opts, args) && Again(opts, s, more, !(LacksArgument(opts, args) && more != []))
    decreases |args|
  {
    if args == [] {
      s := Split([], [], []);
      assert [] + more + [] == more;
      NonOptionsStay(opts, more);
    } else if args[0] == "--" {
      s := Split(["--"], [], args[1..]);
      DashesAgain(opts, s, more);
    } else if IsNonOption(args[0]) {
      s := PartitionAgainFrom(opts, args[1..], more);
      s := s.(nonoptions := [args[0]] + s.nonoptions);
    } else if |args| == 1 && TakesNext(opts, args[0][1..]) && more != [] {
      s := Split([args[0]], [], []);
      OptionTakesOver(opts, args[0], more);
      LoneElement(opts, args);
      assert [args[0]] + more + [] == [args[0]] + more;
    } else {
      var n := Used(opts, args[0][1..], args);
      var rest := PartitionAgainFrom(opts, args[n..], more);
      s := rest.(options := args[..n] + rest.options);
      ClusterAgain(opts, args, n, rest, more, !(LacksArgument(opts, args[n..]) && more != []));
    }
  }

  lemma LoneElement(opts: string, args: seq<string>)
    requires |args| == 1 && args[0] != "--" && !IsNonOption(args[0])
    ensures Partition(opts, args) == Split([args[0]], [], [])
  {
    assert Partition(opts, args[1..]) == Split([], [], []);
    assert args[..1] + [] == [args[0]];
  }

  lemma DashesAgain(opts: string, s: Split, more: seq<string>)
    requires s.options == ["--"]
    ensures Again(opts, s, more, true)
  {
    var flat := s.options + more + s.tail;
    assert flat[1..] == more + s.tail;
    assert Partition(opts, flat) == Split(["--"], [], more + s.tail);
  }

  /** The element in front and its argument stay where they are. */
  lemma ClusterAgain(opts: string, args: seq<string>, n: nat, rest: Split, more: seq<string>, same: bool)
    requires args != [] && args[0] != "--" && !IsNonOption(args[0]) && n == Used(opts, args[0][1..], args)
    requires |args| == 1 ==> rest == Split([], [], []) && (TakesNext(opts, args[0][1..]) ==> more == [])
    requires Again(opts, rest, more, same)
    ensures Again(opts, rest.(options := args[..n] + rest.options), more, same)
  {
    var flat := rest.options + more + rest.tail;
    FourParts(args[..n], rest.options, more, rest.tail);
    PrefixAgain(opts, args[..n], flat);
    var u := rest.(options := args[..n] + rest.options);
    assert u.options + more + u.tail == args[..n] + flat;
    assert |Partition(opts, args[..n] + flat).options| == n + |Partition(opts, flat).options|;
    assert |u.options| == n + |rest.options|;
    assert |Partition(opts, flat).options| == |rest.options| <==> same;
    assert Again(opts, u, more, same);
  }

  lemma FourParts(a: seq<string>, b: seq<string>, c: seq<string>, d: seq<string>)
    ensures a + b + c + d == a + (b + c + d)
  {
  }

  lemma OptionTakesOver(opts: string, o: string, more: seq<string>)
    requires o != "--" && !IsNonOption(o) && TakesNext(opts, o[1..]) && more != []
    requires forall i :: 0 <= i < |more| ==> IsNonOption(more[i])
    ensures var t := Partition(opts, [o] + more); t.Flat() == [o] + more && |t.options| == 2
  {
    var args := [o] + more;
    assert args[2..] == more[1..];
    NonOptionsStay(opts, more[1..]);
    assert Partition(opts, args) == Split(args[..2], more[1..], []);
  }

  lemma PrefixAgain(opts: string, front: seq<string>, rest: seq<string>)
    requires front != [] && front[0] != "--" && !IsNonOption(front[0])
    requires Used(opts, front[0][1..], front + rest) == |front|
    requires Partition(opts, rest).Flat() == rest
    ensures var t := Partition(opts, front + rest);
            t.Flat() == front + rest && |t.options| == |front| + |Partition(opts, rest).options|
  {
    var args, t := front + rest, Partition(opts, rest);
    assert args[..|front|] == front && args[|front|..] == rest;
    assert Partition(opts, args) == t.(options := front + t.options);
    FlatFront(t, front);
  }

  lemma FlatFront(s: Split, front: seq<string>)
    ensures s.(options := front + s.options).Flat() == front + s.Flat()
  {
  }
}
