/** `normalize`: the token rewriter that runs before option parsing.
    "-abc" becomes "-a" "-b" "-c", "--key=value" becomes "--key" "value"
    (split at the first '='), and every other token passes through. */
module Tokenizer {
  import opened Outcomes
  import opened Text

  /** One "-c" token for every character c of `s`. */
  function Cluster(s: string): seq<string>
  {
    seq(|s|, i requires 0 <= i < |s| => ['-', s[i]])
  }

  /** The rewrite of one token. A token shorter than two characters that is
      not a cluster reaches the slice `arg[0:2]` and faults. */
  function NormalizeToken(arg: string): Result<seq<string>>
  {
    if |arg| > 1 && arg[0] == '-' && arg[1] != '-' then Ok(Cluster(arg[1..]))
    else if |arg| < 2 then Err(Panic(ShortToken))
    else if arg[..2] == "--" && '=' in arg then
      var k := IndexOf(arg, '=');
      Ok([arg[..k], arg[k + 1..]])
    else Ok([arg])
  }

  /** `normalize` over a whole argument list: the rewrites of the tokens,
      concatenated in order; the first faulting token stops it. */
  function Normalize(args: seq<string>): Result<seq<string>>
  {
    if args == [] then Ok([])
    else
      match NormalizeToken(args[0])
      case Err(e) => Err(e)
      case Ok(head) =>
        match Normalize(args[1..])
        case Err(e) => Err(e)
        case Ok(tail) => Ok(head + tail)
  }

  /** Sequencing of two results: the first error wins, otherwise the
      values are concatenated. */
  function Concat2(x: Result<seq<string>>, y: Result<seq<string>>): Result<seq<string>>
  {
    if x.Err? then x else if y.Err? then y else Ok(x.value + y.value)
  }

  /** `normalize` is a flat map: it distributes over concatenation. */
  lemma {:induction false} NormalizeAppend(a: seq<string>, b: seq<string>)
    ensures Normalize(a + b) == Concat2(Normalize(a), Normalize(b))
  {
    if a == [] {
      assert a + b == b;
      if Normalize(b).Ok? {
        assert [] + Normalize(b).value == Normalize(b).value;
      }
    } else {
      assert (a + b)[0] == a[0] && (a + b)[1..] == a[1..] + b;
      NormalizeAppend(a[1..], b);
      if NormalizeToken(a[0]).Ok? && Normalize(a[1..]).Ok? && Normalize(b).Ok? {
        var h, t, u := NormalizeToken(a[0]).value, Normalize(a[1..]).value, Normalize(b).value;
        assert h + (t + u) == (h + t) + u;
      }
    }
  }

  /** A token is rewritten without fault exactly when it has at least two
      characters, and it is rewritten into at least one token; the only fault
      is the short slice. */
  lemma {:induction false} NormalizeTokenShape(arg: string)
    ensures NormalizeToken(arg).Ok? <==> |arg| >= 2
    ensures NormalizeToken(arg).Ok? ==> |NormalizeToken(arg).value| >= 1
    ensures NormalizeToken(arg).Err? ==> NormalizeToken(arg).error == Panic(ShortToken)
  {
  }

  /** `normalize` succeeds exactly when every token has at least two
      characters, it never shortens the list, and its only fault is the
      short slice. */
  lemma {:induction false} NormalizeShape(args: seq<string>)
    ensures Normalize(args).Ok? <==> forall i :: 0 <= i < |args| ==> |args[i]| >= 2
    ensures Normalize(args).Ok? ==> |Normalize(args).value| >= |args|
    ensures Normalize(args).Err? ==> Normalize(args).error == Panic(ShortToken)
  {
    if args != [] {
      NormalizeTokenShape(args[0]);
      NormalizeShape(args[1..]);
      assert forall i :: 1 <= i < |args| ==> args[i] == args[1..][i - 1];
    }
  }

  /** Rule 2: a long flag with '=' is split at the first '='; the two parts
      rejoined around that '=' give the token back. */
  lemma {:induction false} EqualsRule(arg: string)
    requires |arg| >= 2 && arg[..2] == "--" && '=' in arg
    ensures NormalizeToken(arg).Ok? && |NormalizeToken(arg).value| == 2
    ensures var r := NormalizeToken(arg).value;
      r[0] + "=" + r[1] == arg && '=' !in r[0] && StartsWith(r[0], "--")
  {
    var k := IndexOf(arg, '=');
    assert k >= 2;
    var r := NormalizeToken(arg).value;
    assert r == [arg[..k], arg[k + 1..]];
    assert arg[..k] + "=" + arg[k + 1..] == arg;
    assert r[0][..2] == arg[..2];
  }

  /** A token that `normalize` leaves as it is: long enough not to fault,
      not a cluster of two or more flags, and not a "--key=value" pair. */
  predicate Settled(arg: string)
  {
    && |arg| >= 2
    && !(arg[0] == '-' && arg[1] != '-' && |arg| > 2)
    && !(arg[..2] == "--" && '=' in arg)
  }

  /** A token is rewritten to itself exactly when it is settled. */
  lemma {:induction false} TokenFixedPoint(arg: string)
    ensures NormalizeToken(arg) == Ok([arg]) <==> Settled(arg)
  {
    if |arg| > 1 && arg[0] == '-' && arg[1] != '-' {
      if |arg| == 2 {
        assert Cluster(arg[1..]) == [['-', arg[1]]];
        assert ['-', arg[1]] == arg;
      } else {
        assert |Cluster(arg[1..])| == |arg| - 1 != 1;
      }
    }
  }

  /** `normalize` returns its input exactly when every token is settled. */
  lemma {:induction false} NormalizeFixedPoint(args: seq<string>)
    ensures Normalize(args) == Ok(args) <==> forall i :: 0 <= i < |args| ==> Settled(args[i])
  {
    if args != [] {
      NormalizeFixedPoint(args[1..]);
      TokenFixedPoint(args[0]);
      assert forall i :: 1 <= i < |args| ==> args[i] == args[1..][i - 1];
      if Normalize(args) == Ok(args) {
        var head, tail := NormalizeToken(args[0]).value, Normalize(args[1..]).value;
        assert head + tail == args;
        NormalizeTokenShape(args[0]);
        NormalizeShape(args[1..]);
        assert |head| == 1;
        assert head == [args[0]] by { assert head[0] == (head + tail)[0]; }
        assert tail == args[1..] by { assert tail == (head + tail)[1..]; }
      }
      if forall i :: 0 <= i < |args| ==> Settled(args[i]) {
        assert [args[0]] + args[1..] == args;
      }
    }
  }

  /** The tokens a cluster produces are rewritten to themselves. */
  lemma {:induction false} ClusterFixedPoint(c: char)
    ensures NormalizeToken(['-', c]) == Ok([['-', c]])
  {
    if c != '-' {
      assert Cluster(['-', c][1..]) == [['-', c]];
    } else {
      assert ['-', c][..2] == "--";
      assert '=' !in ['-', c];
    }
  }

  /** Splitting a cluster is final: normalizing the flags it produced
      changes nothing. */
  lemma {:induction false} ClusterStable(arg: string)
    requires |arg| > 1 && arg[0] == '-' && arg[1] != '-'
    ensures NormalizeToken(arg).Ok?
    ensures Normalize(NormalizeToken(arg).value) == NormalizeToken(arg)
  {
    var c := Cluster(arg[1..]);
    forall i | 0 <= i < |c|
      ensures Settled(c[i])
    {
      ClusterFixedPoint(arg[1..][i]);
      TokenFixedPoint(c[i]);
    }
    NormalizeFixedPoint(c);
  }

  /** `normalize` is not idempotent: the value split off a "--key=value"
      token may itself be too short to normalize again. */
  lemma NotIdempotent()
    ensures Normalize(["--port=8"]) == Ok(["--port", "8"])
    ensures Normalize(["--port", "8"]) == Err(Panic(ShortToken))
  {
    assert IndexOf("--port=8", '=') == 6;
    assert "--port=8"[..6] == "--port" && "--port=8"[7..] == "8";
    assert NormalizeToken("--port=8") == Ok(["--port", "8"]);
    assert "--port=8"[..2] == "--";
    assert ["--port=8"][1..] == [];
    assert Normalize(["--port=8"][1..]) == Ok([]);
    assert ["--port", "8"] + [] == ["--port", "8"];
    assert ["--port", "8"][1..] == ["8"];
    assert ["8"][1..] == [];
    assert "--port"[..2] == "--" && '=' !in "--port";
  }

  /** `normalize` as the source writes it: an append loop over the tokens,
      with an inner loop over the characters of a cluster. */
  method NormalizeArgs(args: seq<string>) returns (r: Result<seq<string>>)
    ensures r == Normalize(args)
  {
    var normalized: seq<string> := [];
    var i := 0;
    while i < |args|
      invariant 0 <= i <= |args|
      invariant Normalize(args[..i]) == Ok(normalized)
    {
      var arg := args[i];
      ghost var before := normalized;
      ghost var produced: seq<string>;
      if |arg| > 1 && arg[0] == '-' && arg[1] != '-' {
        var rest := arg[1..];
        var j := 0;
        while j < |rest|
          invariant 0 <= j <= |rest|
          invariant normalized == before + Cluster(rest)[..j]
        {
          assert Cluster(rest)[..j + 1] == Cluster(rest)[..j] + [['-', rest[j]]];
          normalized := normalized + [['-', rest[j]]];
          j := j + 1;
        }
        assert Cluster(rest)[..j] == Cluster(rest);
        produced := Cluster(rest);
      } else if |arg| < 2 {
        NormalizeAppend(args[..i], [arg]);
        assert args[..i] + [arg] == args[..i + 1];
        NormalizeAppend(args[..i + 1], args[i + 1..]);
        assert args[..i + 1] + args[i + 1..] == args;
        return Err(Panic(ShortToken));
      } else if arg[..2] == "--" && '=' in arg {
        var index := IndexOf(arg, '=');
        normalized := normalized + [arg[..index]];
        normalized := normalized + [arg[index + 1..]];
        produced := [arg[..index], arg[index + 1..]];
      } else {
        normalized := normalized + [arg];
        produced := [arg];
      }
      assert NormalizeToken(arg) == Ok(produced) && normalized == before + produced;
      NormalizeAppend(args[..i], [arg]);
      assert args[..i] + [arg] == args[..i + 1];
      assert Normalize([arg]) == Ok(produced) by {
        assert [arg][1..] == [];
        assert produced + [] == produced;
      }
      i := i + 1;
    }
    assert args[..i] == args;
    return Ok(normalized);
  }
}
