/**
  The runner's protection of the free-form prompt before the argument
  vector is handed to a shell: when the last argument contains a space and
  does not already start with a double quote, its double quotes are
  backslash-escaped and it is wrapped in double quotes. No other argument
  is touched.
 */
module Quoting {
  import opened Wrappers
  import opened Text

  /** JavaScript's `s.replace(/"/g, '\\"')`: a backslash is put before every
      double quote. In the result every double quote is escaped. */
  function Escape(s: string): (r: string)
    ensures forall i | 0 <= i < |r| && r[i] == '"' :: 0 < i && r[i - 1] == '\\'
    ensures |r| >= |s|
  {
    if s == [] then []
    else (if s[0] == '"' then ['\\', '"'] else [s[0]]) + Escape(s[1..])
  }

  /** The inverse scan: left to right, every backslash-quote pair becomes a
      double quote and every other character is kept. */
  function Unescape(s: string): string {
    if s == [] then []
    else if |s| >= 2 && s[0] == '\\' && s[1] == '"' then ['"'] + Unescape(s[2..])
    else [s[0]] + Unescape(s[1..])
  }

  /** Escaping loses nothing: unescaping gives the original string back. */
  lemma {:induction false} UnescapeEscape(s: string)
    ensures Unescape(Escape(s)) == s
  {
    if s != [] {
      var e := Escape(s[1..]);
      UnescapeEscape(s[1..]);
      if s[0] == '"' {
        assert Escape(s) == ['\\', '"'] + e;
        assert (['\\', '"'] + e)[2..] == e;
      } else {
        assert Escape(s) == [s[0]] + e;
        assert ([s[0]] + e)[1..] == e;
        assert e != [] ==> e[0] != '"';
      }
    }
  }

  /** The quoted form of an argument (line 257). */
  function Quote(s: string): (q: string)
    ensures |q| >= 2 && q[0] == '"' && q[|q| - 1] == '"'
  {
    "\"" + Escape(s) + "\""
  }

  /** Reads a quoted argument back: the outer quotes removed and the inner
      text unescaped; `None` when the string is not wrapped in quotes. */
  function Unquote(q: string): Option<string> {
    if |q| >= 2 && q[0] == '"' && q[|q| - 1] == '"' then Some(Unescape(q[1..|q| - 1]))
    else None
  }

  /** Quoting is reversible. */
  lemma QuoteRoundTrip(s: string)
    ensures Unquote(Quote(s)) == Some(s)
  {
    var q := Quote(s);
    assert q[1..|q| - 1] == Escape(s);
    UnescapeEscape(s);
  }

  lemma {:induction false} EscapeKeepsLastChar(s: string)
    requires s != [] && s[|s| - 1] != '"'
    ensures Escape(s) != [] && Escape(s)[|Escape(s)| - 1] == s[|s| - 1]
  {
    if |s| > 1 {
      EscapeKeepsLastChar(s[1..]);
    }
  }

  /** Only double quotes are escaped: an argument ending in a backslash is
      quoted with that backslash right before the closing quote, which a
      POSIX shell reads as an escaped quote rather than the end of the
      word. */
  lemma BackslashBeforeClosingQuote(s: string)
    requires s != [] && s[|s| - 1] == '\\'
    ensures var q := Quote(s); q[|q| - 2] == '\\' && q[|q| - 1] == '"'
  {
    EscapeKeepsLastChar(s);
  }

  /** The test of line 256: the argument holds a space character (only
      U+0020 counts) and does not already start with a double quote. */
  predicate NeedsQuoting(arg: string) {
    ' ' in arg && !StartsWith(arg, "\"")
  }

  /** The argument vector the runner spawns (lines 252-259): a copy of
      `args` whose last element is quoted when it needs quoting. */
  function QuotedArgs(args: seq<string>): (r: seq<string>)
    ensures |r| == |args|
    ensures forall i | 0 <= i < |args| - 1 :: r[i] == args[i]
    ensures args == [] || !NeedsQuoting(args[|args| - 1]) ==> r == args
    ensures args != [] && NeedsQuoting(args[|args| - 1]) ==>
      r[|r| - 1] == Quote(args[|args| - 1]) && Unquote(r[|r| - 1]) == Some(args[|args| - 1])
  {
    if args != [] && NeedsQuoting(args[|args| - 1]) then
      QuoteRoundTrip(args[|args| - 1]);
      args[..|args| - 1] + [Quote(args[|args| - 1])]
    else
      args
  }

  /** Quoting twice is quoting once: a quoted argument starts with a double
      quote and is left alone the second time. */
  lemma QuotedArgsIdempotent(args: seq<string>)
    ensures QuotedArgs(QuotedArgs(args)) == QuotedArgs(args)
  {
    var r := QuotedArgs(args);
    if r != [] {
      assert StartsWith(r[|r| - 1], "\"") || r == args;
    }
  }

  /** Every argument of the spawned vector reads back as the argument the
      node built: the quoted last one through `Unquote`, the rest as they
      are. */
  lemma QuotedArgsRecoverable(args: seq<string>)
    ensures forall i | 0 <= i < |args| ::
      var r := QuotedArgs(args);
      r[i] == args[i] || (i == |args| - 1 && Unquote(r[i]) == Some(args[i]))
  {
  }

  /** The runner's copy-then-overwrite (lines 252-259): the arguments are
      copied into a fresh array and its last slot is overwritten in place
      with the quoted form when the test of line 256 holds. */
  method ProcessArgs(args: seq<string>) returns (processed: array<string>)
    ensures fresh(processed)
    ensures processed[..] == QuotedArgs(args)
  {
    processed := new string[|args|](i requires 0 <= i < |args| => args[i]);
    assert processed[..] == args;
    if processed.Length > 0 {
      var lastArgIndex := processed.Length - 1;
      var lastArg := processed[lastArgIndex];
      if NeedsQuoting(lastArg) {
        processed[lastArgIndex] := Quote(lastArg);
        assert processed[..] == args[..lastArgIndex] + [Quote(lastArg)];
      }
    }
  }
}
