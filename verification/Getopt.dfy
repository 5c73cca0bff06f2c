/** The resumable option scanner in its PERMUTE ordering: file-scope state in a
    class, argv permuted in place, proved against the one-pass reading of
    `GetoptSpec`. */
module Getopt {
  import opened Basics
  import opened GetoptSpec

  /** v with the adjacent stretches [f, l) and [l, o) swapped. */
  ghost function Exchanged(v: seq<string>, f: nat, l: nat, o: nat): seq<string>
    requires f <= l <= o <= |v|
  {
    v[..f] + v[l..o] + v[f..l] + v[o..]
  }

  /** Place i of w holds what lies opposite to it in the stretch [lo, hi) of v, or at i outside the stretch. */
  ghost predicate Mirrored(v: seq<string>, w: seq<string>, lo: nat, hi: nat, i: int)
    requires lo <= hi <= |v| == |w| && 0 <= i < |v|
  {
    w[i] == v[if lo <= i < hi then lo + hi - 1 - i else i]
  }

  /** w is v with the stretch [lo, hi) reversed. */
  ghost predicate Mirrors(v: seq<string>, w: seq<string>, lo: nat, hi: nat)
    requires lo <= hi <= |v|
  {
    |w| == |v| && forall i :: 0 <= i < |v| ==> Mirrored(v, w, lo, hi, i)
  }

  /** Where the element at place i comes from. */
  lemma ThreeReversalsAt(v: seq<string>, v1: seq<string>, v2: seq<string>, v3: seq<string>, f: nat, l: nat, o: nat, i: nat)
    requires f <= l <= o <= |v| && i < |v| == |v1| == |v2| == |v3|
    requires Mirrors(v, v1, f, o) && Mirrors(v1, v2, f, f + (o - l)) && Mirrors(v2, v3, f + (o - l), o)
    ensures v3[i] == Exchanged(v, f, l, o)[i]
  {
    var m := f + (o - l);
    var j := if m <= i < o then m + o - 1 - i else i;
    var k := if f <= j < m then f + m - 1 - j else j;
    assert Mirrored(v2, v3, m, o, i) && Mirrored(v1, v2, f, m, j) && Mirrored(v, v1, f, o, k);
  }

  /** Reversing the whole stretch and then each part of it swaps the parts. */
  lemma ThreeReversals(v: seq<string>, v1: seq<string>, v2: seq<string>, v3: seq<string>, f: nat, l: nat, o: nat)
    requires f <= l <= o <= |v|
    requires Mirrors(v, v1, f, o) && Mirrors(v1, v2, f, f + (o - l)) && Mirrors(v2, v3, f + (o - l), o)
    ensures v3 == Exchanged(v, f, l, o)
  {
    forall i | 0 <= i < |v|
      ensures v3[i] == Exchanged(v, f, l, o)[i]
    {
      ThreeReversalsAt(v, v1, v2, v3, f, l, o, i);
    }
  }

  /** Reverses argv[lo..hi] by swapping from both ends. */
  method ReverseSpan(argv: array<string>, lo: nat, hi: nat)
    requires lo <= hi <= argv.Length
    modifies argv
    ensures Mirrors(old(argv[..]), argv[..], lo, hi)
  {
    var first, last: int := lo, hi - 1;
    while first < last
      invariant lo <= first && last < hi && first - lo == hi - 1 - last && first <= last + 1
      invariant forall i :: 0 <= i < argv.Length && !(lo <= i < first) && !(last < i < hi) ==> argv[i] == old(argv[i])
      invariant forall i :: lo <= i < first || last < i < hi ==> argv[i] == old(argv[lo + hi - 1 - i])
    {
      argv[first], argv[last] := argv[last], argv[first];
      first, last := first + 1, last - 1;
    }
  }

  /** Swaps the stretches [f, l) and [l, o): reverses the whole stretch and then each of its parts. */
  method SwapStretches(argv: array<string>, f: nat, l: nat, o: nat)
    requires f <= l <= o <= argv.Length
    modifies argv
    ensures argv[..] == Exchanged(old(argv[..]), f, l, o)
  {
    var m := f + (o - l);
    ghost var v := argv[..];
    ReverseSpan(argv, f, o);
    ghost var v1 := argv[..];
    ReverseSpan(argv, f, m);
    ghost var v2 := argv[..];
    ReverseSpan(argv, m, o);
    ThreeReversals(v, v1, v2, argv[..], f, l, o);
  }

  /** v is the program name, options already in front, skipped non-options [f, l), options seen since [l, o), and
      the unscanned rest, still as in `orig`; together with what is unscanned they make up the split of `orig`. */
  ghost predicate PlacedAt(opts: string, v: seq<string>, orig: seq<string>, f: nat, l: nat, o: nat, nextchar: string)
    requires 1 <= f <= l <= o <= |v| && (nextchar != "" ==> o < |v|)
  {
    && |v| == |orig| && v[0] == orig[0] && v[o..] == orig[o..]
    && var rest := if nextchar == "" then Partition(opts, orig[o..]) else ClusterSplit(opts, nextchar, orig[o..]);
       Partition(opts, orig[1..]) == Split(v[1..f] + v[l..o] + rest.options, v[f..l] + rest.nonoptions, rest.tail)
  }

  ghost predicate Placed(opts: string, v: seq<string>, orig: seq<string>, f: nat, l: nat, o: nat)
    requires 1 <= f <= l <= o <= |v|
  {
    PlacedAt(opts, v, orig, f, l, o, "")
  }

  lemma StartPlaced(opts: string, v: seq<string>)
    requires |v| >= 1
    ensures Placed(opts, v, v, 1, 1, 1)
  {
    var s := Partition(opts, v[1..]);
    assert s == Split(v[1..1] + v[1..1] + s.options, v[1..1] + s.nonoptions, s.tail);
  }

  /** Swapping the non-options with the options seen since keeps the split. */
  lemma Gathered(opts: string, v: seq<string>, orig: seq<string>, f: nat, l: nat, o: nat)
    returns (w: seq<string>, m: nat)
    requires 1 <= f <= l <= o <= |v| && Placed(opts, v, orig, f, l, o)
    ensures w == Exchanged(v, f, l, o) && |w| == |v| && m == f + (o - l) && Placed(opts, w, orig, m, o, o)
  {
    w, m := Exchanged(v, f, l, o), f + (o - l);
    assert w[1..m] == v[1..f] + v[l..o];
    assert w[m..o] == v[f..l];
    assert w[o..] == v[o..];
    assert w[1..m] + w[o..o] == w[1..m];
  }

  lemma NoneSkipped(opts: string, v: seq<string>, orig: seq<string>, f: nat, o: nat)
    requires 1 <= f <= o <= |v| && Placed(opts, v, orig, f, f, o)
    ensures Placed(opts, v, orig, o, o, o)
  {
    assert v[1..o] + v[o..o] == v[1..f] + v[f..o];
    assert v[f..f] == v[o..o];
  }

  lemma SkipOne(opts: string, v: seq<string>, orig: seq<string>, f: nat, o: nat) returns (next: nat)
    requires 1 <= f <= o < |v| && Placed(opts, v, orig, f, o, o) && IsNonOption(v[o])
    ensures next == o + 1 && Placed(opts, v, orig, f, next, next)
    ensures Answers(opts, orig[next..]) == Answers(opts, orig[o..])
  {
    next := o + 1;
    assert v[o..][0] == orig[o..][0] == orig[o];
    assert orig[o..][1..] == orig[o + 1..] && v[o..][1..] == v[o + 1..];
    var rest := Partition(opts, orig[o + 1..]);
    assert v[f..o] + ([orig[o]] + rest.nonoptions) == v[f..o + 1] + rest.nonoptions;
    assert v[1..f] + v[o..o] + rest.options == v[1..f] + v[o + 1..o + 1] + rest.options;
  }

  /** A "--" ends the options and joins them; everything after it stays. */
  lemma StopAtDashes(opts: string, v: seq<string>, orig: seq<string>, f: nat, o: nat)
    requires 1 <= f <= o < |v| && Placed(opts, v, orig, f, o, o) && v[o] == "--"
    ensures var s := Partition(opts, orig[1..]);
            && Exchanged(v, f, o, o + 1) == [orig[0]] + s.Flat()
            && f + 1 == 1 + |s.options|
            && (f == o ==> v == [orig[0]] + s.Flat())
    ensures Answers(opts, orig[o..]) == []
  {
    assert v[o..][0] == orig[o..][0] == "--";
    assert v[1..f] + v[o..o] == v[1..f];
    var s := Partition(opts, orig[1..]);
    assert s == Split(v[1..f] + ["--"], v[f..o], v[o + 1..]);
    DashesFlat(v, f, o, s);
  }

  lemma DashesFlat(v: seq<string>, f: nat, o: nat, s: Split)
    requires 1 <= f <= o < |v| && v[o] == "--" && s == Split(v[1..f] + ["--"], v[f..o], v[o + 1..])
    ensures Exchanged(v, f, o, o + 1) == [v[0]] + s.Flat()
    ensures f == o ==> v == [v[0]] + s.Flat()
  {
    assert v[o..o + 1] == ["--"];
    assert v[..f] == [v[0]] + v[1..f];
    if f == o { assert v == v[..f] + v[o..o + 1] + v[o + 1..]; }
  }

  /** With nothing left to scan, argv is the permuted vector. */
  lemma StopAtEnd(opts: string, v: seq<string>, orig: seq<string>, f: nat)
    requires 1 <= f <= |v| && Placed(opts, v, orig, f, |v|, |v|)
    ensures var s := Partition(opts, orig[1..]);
            v == [orig[0]] + s.Flat() && f == 1 + |s.options|
    ensures Answers(opts, orig[|v|..]) == []
  {
    var s := Partition(opts, orig[1..]);
    assert orig[|v|..] == [] && v[|v|..|v|] == [];
    assert s == Split(v[1..f], v[f..|v|], []);
    EndFlat(v, f, s);
  }

  lemma EndFlat(v: seq<string>, f: nat, s: Split)
    requires 1 <= f <= |v| && s == Split(v[1..f], v[f..|v|], [])
    ensures v == [v[0]] + s.Flat() && f == 1 + |s.options|
  {
  }

  /** The first element of the rest becomes the cluster being decoded. */
  lemma EnterCluster(opts: string, v: seq<string>, orig: seq<string>, f: nat, o: nat)
    requires 1 <= f <= o < |v| && Placed(opts, v, orig, f, o, o)
    requires v[o] != "--" && !IsNonOption(v[o])
    ensures PlacedAt(opts, v, orig, f, o, o, v[o][1..])
    ensures Answers(opts, orig[o..]) == ClusterAnswers(opts, v[o][1..], orig[o..])
  {
    assert v[o..][0] == orig[o..][0];
  }

  /** Decoding moves on inside the cluster. */
  lemma StayInCluster(opts: string, v: seq<string>, orig: seq<string>, f: nat, l: nat, o: nat, cluster: string)
    requires 1 <= f <= l <= o < |v| && |cluster| > 1 && PlacedAt(opts, v, orig, f, l, o, cluster)
    requires Used(opts, cluster, orig[o..]) == Used(opts, cluster[1..], orig[o..])
    ensures PlacedAt(opts, v, orig, f, l, o, cluster[1..])
  {
  }

  /** Decoding moves past the elements the cluster used. */
  lemma LeaveCluster(opts: string, v: seq<string>, orig: seq<string>, f: nat, l: nat, o: nat, cluster: string, next: nat)
    requires 1 <= f <= l <= o < |v| && cluster != "" && PlacedAt(opts, v, orig, f, l, o, cluster)
    requires next == o + Used(opts, cluster, orig[o..])
    ensures Placed(opts, v, orig, f, l, next)
  {
    var n := Used(opts, cluster, orig[o..]);
    assert orig[o..][n..] == orig[next..] && v[o..][n..] == v[next..];
    var rest := Partition(opts, orig[next..]);
    assert ClusterSplit(opts, cluster, orig[o..]) == rest.(options := orig[o..][..n] + rest.options);
    TakenOver(v, orig, f, l, o, n, rest.options);
  }

  lemma TakenOver(v: seq<string>, orig: seq<string>, f: nat, l: nat, o: nat, n: nat, rest: seq<string>)
    requires 1 <= f <= l <= o && o + n <= |v| == |orig| && v[o..] == orig[o..]
    ensures v[1..f] + v[l..o] + (orig[o..][..n] + rest) == v[1..f] + v[l..o + n] + rest
  {
    assert orig[o..][..n] == v[o..][..n] == v[o..o + n];
    assert v[l..o] + v[o..o + n] == v[l..o + n];
    assert v[1..f] + v[l..o] + (v[o..o + n] + rest) == v[1..f] + (v[l..o] + v[o..o + n]) + rest;
  }

  /** What one letter answers, how many elements of argv are finished with it, and what is left of its cluster. */
  datatype Move = Move(answer: Answer, used: nat, rest: string)

  function MoveOf(opts: string, cluster: string, args: seq<string>): Move
    requires cluster != "" && args != []
  {
    var c, rest := cluster[0], cluster[1..];
    match KindOf(opts, c)
    case Required =>
      if rest != "" then Move(Opt(c, Some(rest)), 1, "")
      else if |args| == 1 then Move(Missing(opts, c), 1, "")
      else Move(Opt(c, Some(args[1])), 2, "")
    case Optional => Move(Opt(c, if rest == "" then None else Some(rest)), 1, "")
    case _ => Move(Opt(if KindOf(opts, c).Bad? then BAD_OPTION else c, None), if rest == "" then 1 else 0, rest)
  }

  /** The answers of a cluster are that of its first letter and those of what the letter leaves. */
  lemma MoveAnswers(opts: string, cluster: string, args: seq<string>)
    requires cluster != "" && args != []
    ensures var m := MoveOf(opts, cluster, args);
            && m.used <= |args|
            && ClusterAnswers(opts, cluster, args) == [m.answer] +
                 (if m.rest == "" then Answers(opts, args[m.used..]) else ClusterAnswers(opts, m.rest, args))
            && (m.rest == "" ==> m.used == Used(opts, cluster, args))
            && (m.rest != "" ==> m.used == 0 && m.rest == cluster[1..] && Used(opts, cluster, args) == Used(opts, m.rest, args))
  {
    assert TakesNext(opts, "") == false;
    match KindOf(opts, cluster[0])
    case Required =>
    case Optional =>
    case _ =>
      assert TakesNext(opts, cluster) == TakesNext(opts, cluster[1..]);
  }

  /** argv keeps its shape when a letter has been decoded. */
  lemma MovePlaced(opts: string, v: seq<string>, orig: seq<string>, f: nat, l: nat, o: nat, cluster: string)
    returns (m: Move, next: nat)
    requires 1 <= f <= l <= o < |v| && cluster != "" && PlacedAt(opts, v, orig, f, l, o, cluster)
    ensures |v| == |orig| && v[o..] == orig[o..]
    ensures m == MoveOf(opts, cluster, orig[o..]) && next == o + m.used
    ensures next <= |v| && (m.rest != "" ==> next < |v|) && PlacedAt(opts, v, orig, f, l, next, m.rest)
    ensures ClusterAnswers(opts, cluster, orig[o..]) == [m.answer] +
              (if m.rest == "" then Answers(opts, orig[next..]) else ClusterAnswers(opts, m.rest, orig[next..]))
  {
    MoveAnswers(opts, cluster, orig[o..]);
    m := MoveOf(opts, cluster, orig[o..]);
    next := o + m.used;
    assert orig[o..][m.used..] == orig[next..];
    if m.rest == "" {
      LeaveCluster(opts, v, orig, f, l, o, cluster, next);
    } else {
      StayInCluster(opts, v, orig, f, l, o, cluster);
    }
  }

  lemma Shift<T>(a: seq<T>, b: seq<T>)
    requires b != []
    ensures a + [b[0]] + b[1..] == a + b
  {
  }

  class Scanner {
    const argv: array<string>
    var optind: nat
    var nextchar: string  // the text nextchar points at; "" for NULL as well
    var optarg: Option<string>
    var optopt: char
    var firstNonopt: nat
    var lastNonopt: nat
    ghost var orig: seq<string>  // argv before the first call
    ghost var done: bool         // EOF has been returned

    constructor (argv: array<string>)
      requires argv.Length >= 1
      ensures this.argv == argv && optind == 0 && orig == argv[..] && !done
    {
      this.argv := argv;
      optind, nextchar, optarg, optopt, firstNonopt, lastNonopt := 0, "", None, BAD_OPTION, 0, 0;
      orig, done := argv[..], false;
    }

    ghost function RestAnswers(opts: string): seq<Answer>
      reads this
      requires optind <= |orig| && (nextchar != "" ==> optind < |orig|)
    {
      if nextchar == "" then Answers(opts, orig[optind..]) else ClusterAnswers(opts, nextchar, orig[optind..])
    }

    /** The answers still to be given. */
    ghost function Remaining(opts: string): seq<Answer>
      reads this, argv
      requires Fresh(opts) || Scanning(opts)
    {
      if optind == 0 then Answers(opts, orig[1..]) else RestAnswers(opts)
    }

    /** Between calls of a PERMUTE scan: argv is the program name, options already in front (A), skipped
        non-options (N), options seen since (B), and the unscanned rest, which is still untouched. */
    ghost predicate Scanning(opts: string)
      reads this, argv
    {
      && !done
      && 1 <= firstNonopt <= lastNonopt <= optind <= argv.Length
      && (nextchar != "" ==> optind < argv.Length)
      && PlacedAt(opts, argv[..], orig, firstNonopt, lastNonopt, optind, nextchar)
    }

    /** After EOF: argv is the permuted vector and optind stands behind the options. */
    ghost predicate Finished(opts: string)
      reads this, argv
    {
      && done && argv.Length == |orig| && Permuted(opts)
      && optind == 1 + |Partition(opts, orig[1..]).options|
    }

    /** Before the first call, for an option string that leaves the order to PERMUTE. */
    ghost predicate Fresh(opts: string)
      reads this, argv
    {
      && !done && optind == 0 && argv.Length >= 1 && orig == argv[..]
      && (opts == "" || (opts[0] != '-' && opts[0] != '+'))
    }

    /** Moves the options in [lastNonopt, optind) in front of the non-options in [firstNonopt, lastNonopt). */
    method Exchange()
      requires firstNonopt <= lastNonopt <= optind <= argv.Length
      modifies argv, `firstNonopt, `lastNonopt
      ensures argv[..] == Exchanged(old(argv[..]), old(firstNonopt), old(lastNonopt), optind)
      ensures firstNonopt == old(firstNonopt) + (optind - old(lastNonopt)) && lastNonopt == optind
    {
      SwapStretches(argv, firstNonopt, lastNonopt, optind);
      firstNonopt := firstNonopt + (optind - lastNonopt);
      lastNonopt := optind;
    }

    /** Brings the options seen since the last non-options to the front. */
    method CloseGap(ghost opts: string)
      requires Scanning(opts) && nextchar == ""
      modifies argv, `firstNonopt, `lastNonopt
      ensures 1 <= firstNonopt <= optind && Placed(opts, argv[..], orig, firstNonopt, optind, optind)
    {
      if firstNonopt != lastNonopt && lastNonopt != optind {
        ghost var w, m := Gathered(opts, argv[..], orig, firstNonopt, lastNonopt, optind);
        Exchange();
        assert argv[..] == w && firstNonopt == m;
      } else if lastNonopt != optind {
        NoneSkipped(opts, argv[..], orig, firstNonopt, optind);
        firstNonopt := optind;
      }
    }

    /** Skips to the next option, "--" or the end. */
    method SkipNonOptions(ghost opts: string)
      requires !done && nextchar == ""
      requires 1 <= firstNonopt <= optind <= argv.Length
      requires Placed(opts, argv[..], orig, firstNonopt, optind, optind)
      modifies `optind, `lastNonopt
      ensures Scanning(opts) && lastNonopt == optind
      ensures optind < argv.Length ==> !IsNonOption(argv[optind])
      ensures RestAnswers(opts) == old(RestAnswers(opts))
    {
      ghost var v, f, o, answers := argv[..], firstNonopt, orig, Answers(opts, orig[optind..]);
      while optind < argv.Length && IsNonOption(argv[optind])
        invariant 1 <= f <= optind <= argv.Length
        invariant Placed(opts, v, o, f, optind, optind)
        invariant Answers(opts, o[optind..]) == answers
        modifies `optind
      {
        ghost var next := SkipOne(opts, v, o, f, optind);
        optind := optind + 1;
      }
      lastNonopt := optind;
    }

    /** argv is the permuted vector. */
    ghost predicate Permuted(opts: string)
      reads this, argv
    {
      orig != [] && argv[..] == [orig[0]] + Partition(opts, orig[1..]).Flat()
    }

    /** Takes a "--" together with the rest of argv. */
    method TakeDashes(ghost opts: string)
      requires Scanning(opts) && nextchar == "" && lastNonopt == optind < argv.Length && argv[optind] == "--"
      modifies argv, `optind, `firstNonopt, `lastNonopt
      ensures optind == lastNonopt == argv.Length && firstNonopt == 1 + |Partition(opts, orig[1..]).options|
      ensures Permuted(opts) && old(RestAnswers(opts)) == []
    {
      StopAtDashes(opts, argv[..], orig, firstNonopt, optind);
      optind := optind + 1;
      if firstNonopt != lastNonopt && lastNonopt != optind {
        Exchange();
      } else if firstNonopt == lastNonopt {
        firstNonopt := optind;
      }
      lastNonopt := argv.Length;
      optind := argv.Length;
    }

    /** At "--" or the end of argv: puts the skipped non-options behind the options and ends the scan. */
    method EndScan(ghost opts: string) returns (ended: bool)
      requires Scanning(opts) && nextchar == "" && lastNonopt == optind
      requires optind < argv.Length ==> !IsNonOption(argv[optind])
      modifies argv, `optind, `firstNonopt, `lastNonopt, `done
      ensures ended ==> Finished(opts) && old(RestAnswers(opts)) == []
      ensures !ended ==> !done && optind == old(optind) && firstNonopt == old(firstNonopt) && lastNonopt == old(lastNonopt)
      ensures !ended ==> argv[..] == old(argv[..]) && optind < argv.Length && argv[optind] != "--"
    {
      if optind != argv.Length && argv[optind] == "--" {
        TakeDashes(opts);
      } else if optind == argv.Length {
        StopAtEnd(opts, argv[..], orig, firstNonopt);
      }
      if optind == argv.Length {
        if firstNonopt != lastNonopt {
          optind := firstNonopt;
        }
        done := true;
        return true;
      }
      return false;
    }

    /** Takes the argument of `letter`: the rest of its element, or the next element unless it is optional. */
    method TakeArgument(opts: string, letter: char, optional: bool) returns (c: char)
      requires 1 <= optind <= argv.Length
      modifies `optind, `nextchar, `optarg, `optopt
      ensures nextchar == ""
      ensures if old(nextchar) != "" then optarg == Some(old(nextchar)) && optind == old(optind) + 1 && c == letter
              else if optional then optarg == None && optind == old(optind) && c == letter
              else if old(optind) == argv.Length then
                optarg == None && optind == old(optind) && optopt == letter
                && c == if opts != "" && opts[0] == ':' then ':' else BAD_OPTION
              else optarg == Some(argv[old(optind)]) && optind == old(optind) + 1 && c == letter
    {
      c := letter;
      optarg := None;
      if nextchar != "" {
        optarg := Some(nextchar);
        optind := optind + 1;
      } else if !optional {
        if optind == argv.Length {
          optopt := letter;
          c := if opts != "" && opts[0] == ':' then ':' else BAD_OPTION;
        } else {
          optarg := Some(argv[optind]);
          optind := optind + 1;
        }
      }
      nextchar := "";
    }

    /** Takes the next option letter of the cluster, with its argument if it has one. */
    method DecodeLetter(opts: string, ghost args: seq<string>, ghost m: Move, ghost next: nat) returns (c: Answer)
      requires 1 <= optind < argv.Length && nextchar != "" && args == argv[optind..]
      requires m == MoveOf(opts, nextchar, args) && next == optind + m.used
      modifies `optind, `nextchar, `optarg, `optopt
      ensures c.Opt? && c.arg == optarg
      ensures c == m.answer && optind == next && nextchar == m.rest
      ensures Unlisted(opts, old(nextchar)[0]) ==> optopt == old(nextchar)[0]
      ensures WantsArgument(opts, old(nextchar)[0]) && |old(nextchar)| == |args| == 1 ==> optopt == old(nextchar)[0]
    {
      BadIs(opts, nextchar[0]);
      ArgumentIs(opts, nextchar[0]);
      assert optind + 1 < argv.Length ==> args[1] == argv[optind + 1];
      optarg := None;
      var letter := nextchar[0];
      nextchar := nextchar[1..];
      var temp := Index(opts, letter);
      if nextchar == "" {
        optind := optind + 1;
      }
      if temp.None? || letter == ':' {
        optopt := letter;
        return Opt(BAD_OPTION, optarg);
      }
      if |temp.value| > 1 && temp.value[1] == ':' {
        letter := TakeArgument(opts, letter, |temp.value| > 2 && temp.value[2] == ':');
      }
      return Opt(letter, optarg);
    }

    /** The answer of the next letter; what is left to scan is as before it. */
    method NextLetter(opts: string) returns (c: Answer)
      requires Scanning(opts) && nextchar != ""
      modifies `optind, `nextchar, `optarg, `optopt
      ensures Scanning(opts) && c.Opt? && c.arg == optarg
      ensures old(RestAnswers(opts)) == [c] + RestAnswers(opts)
    {
      ghost var v, args := argv[..], orig[optind..];
      ghost var m, next := MovePlaced(opts, v, orig, firstNonopt, lastNonopt, optind, nextchar);
      assert args == v[optind..] == argv[optind..];
      c := DecodeLetter(opts, args, m, next);
    }

    /** The first call starts behind the program name. */
    method Begin(ghost opts: string)
      requires Fresh(opts)
      modifies `optind, `nextchar, `firstNonopt, `lastNonopt
      ensures Scanning(opts) && nextchar == "" && RestAnswers(opts) == Answers(opts, orig[1..])
    {
      firstNonopt, lastNonopt, optind := 1, 1, 1;
      nextchar := "";
      StartPlaced(opts, argv[..]);
    }

    /** Goes to the next element with options, or ends the scan. */
    method NextElement(ghost opts: string) returns (ended: bool)
      requires Scanning(opts) && nextchar == ""
      modifies argv, `optind, `nextchar, `firstNonopt, `lastNonopt, `done
      ensures ended ==> Finished(opts) && old(RestAnswers(opts)) == []
      ensures !ended ==> Scanning(opts) && nextchar != "" && old(RestAnswers(opts)) == RestAnswers(opts)
    {
      CloseGap(opts);
      SkipNonOptions(opts);
      ended := EndScan(opts);
      if !ended {
        EnterCluster(opts, argv[..], orig, firstNonopt, optind);
        nextchar := argv[optind][1..];
      }
    }

    /** Goes to the next option letter, or ends the scan. */
    method NextCluster(ghost opts: string) returns (ended: bool)
      requires Fresh(opts) || Scanning(opts)
      modifies argv, `optind, `nextchar, `firstNonopt, `lastNonopt, `done
      ensures ended ==> Finished(opts) && old(Remaining(opts)) == []
      ensures !ended ==> Scanning(opts) && nextchar != "" && old(Remaining(opts)) == RestAnswers(opts)
    {
      ended := false;
      if optind == 0 {
        Begin(opts);
      }
      if nextchar == "" {
        ended := NextElement(opts);
      }
    }

    /** One call: the next answer of the scan. */
    method GetOpt(opts: string) returns (c: Answer)
      requires Fresh(opts) || Scanning(opts)
      modifies argv, `optind, `nextchar, `optarg, `optopt, `firstNonopt, `lastNonopt, `done
      ensures c == Eof <==> done
      ensures c == Eof ==> Finished(opts) && old(Remaining(opts)) == []
      ensures c != Eof ==> Scanning(opts) && c.arg == optarg && old(Remaining(opts)) == [c] + Remaining(opts)
    {
      optarg := None;
      var ended := NextCluster(opts);
      if ended {
        return Eof;
      }
      c := NextLetter(opts);
    }

    /** Calls the scanner until EOF, as its callers do. */
    method Run(opts: string) returns (answers: seq<Answer>)
      requires Fresh(opts)
      modifies argv, `optind, `nextchar, `optarg, `optopt, `firstNonopt, `lastNonopt, `done
      ensures Finished(opts)
      ensures answers == Answers(opts, orig[1..])
    {
      answers := [];
      ghost var all, left := Remaining(opts), Remaining(opts);
      var c := GetOpt(opts);
      while c != Eof
        invariant all == answers + left
        invariant c == Eof ==> Finished(opts) && left == []
        invariant c != Eof ==> Scanning(opts) && left == [c] + Remaining(opts)
        decreases |left|
      {
        Shift(answers, left);
        answers, left := answers + [c], left[1..];
        c := GetOpt(opts);
      }
    }
  }
}
