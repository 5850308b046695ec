/** Concrete runs of `normalize` (cli_test.go, TestNormalizeArgs). */
module NormalizeExamples {
  import opened Outcomes
  import opened Text
  import opened Tokenizer

  lemma {:induction false} Single(arg: string)
    requires NormalizeToken(arg).Ok?
    ensures Normalize([arg]) == NormalizeToken(arg)
  {
    assert [arg][1..] == [];
    assert NormalizeToken(arg).value + [] == NormalizeToken(arg).value;
  }

  lemma NormalizeWord()
    ensures Normalize(["help"]) == Ok(["help"])
  {
    assert "help"[0] == 'h' && "help"[..2] != "--";
    Single("help");
  }

  lemma NormalizeShortFlag()
    ensures Normalize(["-v"]) == Ok(["-v"])
  {
    assert Cluster("-v"[1..]) == ["-v"];
    Single("-v");
  }

  lemma NormalizeLongFlag()
    ensures Normalize(["--version"]) == Ok(["--version"])
  {
    assert "--version"[..2] == "--";
    assert '=' !in "--version";
    Single("--version");
  }

  lemma NormalizeCluster()
    ensures Normalize(["-abc"]) == Ok(["-a", "-b", "-c"])
  {
    assert Cluster("-abc"[1..]) == ["-a", "-b", "-c"];
    Single("-abc");
  }

  lemma NormalizeSeparateValue()
    ensures Normalize(["--port", "8080"]) == Ok(["--port", "8080"])
  {
    var args := ["--port", "8080"];
    assert args[0][..2] == "--" && '=' !in args[0];
    assert args[1][0] == '8';
    assert args[1..] == ["8080"];
    assert NormalizeToken("8080") == Ok(["8080"]);
    Single("8080");
    assert NormalizeToken("--port") == Ok(["--port"]);
    assert ["--port"] + ["8080"] == args;
  }

  lemma NormalizeJoinedValue()
    ensures Normalize(["--port=8080"]) == Ok(["--port", "8080"])
  {
    var arg := "--port=8080";
    assert arg[..2] == "--" && arg[6] == '=';
    assert IndexOf(arg, '=') == 6;
    assert arg[..6] == "--port" && arg[7..] == "8080";
    Single(arg);
  }
}
