/** `ShaderHelper`: reading shader text with `#include` expansion, prepending
    `#define` lines, compiling, and draining the GL error queue. */
module ShaderHelper {
  import opened Common
  import opened Gl
  import Assets

  // ---------------------------------------------------------------------------
  // Error queue

  /** `CheckGLError(tag, site)`: afterwards nothing is pending; raises when
      something was, reporting the most recent code. */
  function CheckGlError(g: Gpu, site: string): (r: (Gpu, Option<Error>))
    ensures r.0 == g.(errors := [])
    ensures r.1.None? <==> |g.errors| == 0
    ensures r.1.Some? ==> r.1 == Some(GlFailure(site, Last(g.errors)))
  {
    (g.(errors := []), if |g.errors| == 0 then None else Some(GlFailure(site, Last(g.errors))))
  }

  /** The drain loop of `CheckGLError` as the source writes it: pop codes until
      `glGetError` reports NO_ERROR, remembering the last one popped. */
  method DrainErrorQueue(g: Gpu, site: string) returns (g': Gpu, thrown: Option<Error>)
    ensures g'.errors == [] && g' == g.(errors := [])
    ensures thrown.None? <==> |g.errors| == 0
    ensures |g.errors| > 0 ==> thrown == Some(GlFailure(site, Last(g.errors)))
    ensures (g', thrown) == CheckGlError(g, site)
  {
    var lastError := NO_ERROR;
    var k := 0;  // codes already popped into lastError
    var popped := GetError(g.errors);
    var e, q := popped.0, popped.1;
    while e != NO_ERROR
      invariant 0 <= k <= |g.errors|
      invariant lastError == if k == 0 then NO_ERROR else g.errors[k - 1]
      invariant e != NO_ERROR ==> k < |g.errors| && e == g.errors[k] && q == g.errors[k + 1..]
      invariant e == NO_ERROR ==> k == |g.errors| && q == []
      decreases |g.errors| - k
    {
      lastError := e;
      k := k + 1;
      popped := GetError(q);
      e, q := popped.0, popped.1;
    }
    g' := g.(errors := q);
    thrown := if lastError != NO_ERROR then Some(GlFailure(site, lastError)) else None;
  }

  // ---------------------------------------------------------------------------
  // Splitting and joining on a separator character

  /** `s.Split(sep)`: the pieces between separators, empty pieces kept. */
  function Split(s: string, sep: char): (r: seq<string>)
    ensures |r| > 0
    decreases |s|
  {
    if |s| == 0 then [""]
    else
      var rest := Split(s[1..], sep);
      if s[0] == sep then [""] + rest
      else [[s[0]] + rest[0]] + rest[1..]
  }

  function Join(parts: seq<string>, sep: char): string
    requires |parts| > 0
  {
    if |parts| == 1 then parts[0] else parts[0] + [sep] + Join(parts[1..], sep)
  }

  /** A piece free of the separator glues onto the first piece of what follows. */
  lemma {:induction false} SplitPrefix(a: string, b: string, sep: char)
    requires sep !in a
    ensures Split(a + b, sep) == [a + Split(b, sep)[0]] + Split(b, sep)[1..]
    decreases |a|
  {
    if |a| > 0 {
      assert (a + b)[1..] == a[1..] + b;
      SplitPrefix(a[1..], b, sep);
      assert [a[0]] + (a[1..] + Split(b, sep)[0]) == a + Split(b, sep)[0];
    } else {
      assert a == [] && a + b == b;
      assert a + Split(b, sep)[0] == Split(b, sep)[0];
      assert Split(b, sep) == [Split(b, sep)[0]] + Split(b, sep)[1..];
    }
  }

  /** A leading separator closes an empty first piece. */
  lemma SplitSep(rest: string, sep: char)
    ensures Split([sep] + rest, sep) == [""] + Split(rest, sep)
  {
    assert ([sep] + rest)[0] == sep && ([sep] + rest)[1..] == rest;
  }

  /** A string without the separator splits into itself. */
  lemma SplitWhole(a: string, sep: char)
    requires sep !in a
    ensures Split(a, sep) == [a]
  {
    SplitPrefix(a, "", sep);
    assert a + "" == a;
  }

  /** Splitting undoes joining, when no piece contains the separator. */
  lemma {:induction false} SplitJoin(parts: seq<string>, sep: char)
    requires |parts| > 0
    requires forall i :: 0 <= i < |parts| ==> sep !in parts[i]
    ensures Split(Join(parts, sep), sep) == parts
    decreases |parts|
  {
    if |parts| == 1 {
      SplitWhole(parts[0], sep);
    } else {
      var rest := Join(parts[1..], sep);
      SplitJoin(parts[1..], sep);
      SplitPrefix(parts[0], [sep] + rest, sep);
      SplitSep(rest, sep);
      assert parts[0] + [sep] + rest == parts[0] + ([sep] + rest);
      assert parts[0] + "" == parts[0];
      assert parts == [parts[0]] + parts[1..];
    }
  }

  /** Joining undoes splitting, and no piece of a split contains the separator. */
  lemma {:induction false} JoinSplit(s: string, sep: char)
    ensures Join(Split(s, sep), sep) == s
    ensures forall i :: 0 <= i < |Split(s, sep)| ==> sep !in Split(s, sep)[i]
    decreases |s|
  {
    if |s| > 0 {
      JoinSplit(s[1..], sep);
      var rest := Split(s[1..], sep);
      if s[0] == sep {
        assert [s[0]] + s[1..] == s;
      } else {
        var r := Split(s, sep);
        assert r == [[s[0]] + rest[0]] + rest[1..];
        if |rest| == 1 {
          assert Join(r, sep) == [s[0]] + rest[0];
        } else {
          assert Join(r, sep) == [s[0]] + rest[0] + [sep] + Join(rest[1..], sep);
        }
        assert [s[0]] + s[1..] == s;
        forall i | 0 <= i < |r| ensures sep !in r[i] {
          if i > 0 { assert r[i] == rest[i]; }
        }
      }
    }
  }

  // ---------------------------------------------------------------------------
  // Decimal rendering of the #define values

  function DigitChar(d: int): char
    requires 0 <= d < 10
  {
    (48 + d) as char
  }

  function DigitValue(c: char): int {
    c as int - 48
  }

  /** Decimal digits of a natural number, most significant first, as `Int32.ToString()` writes them. */
  function NatToString(n: nat): (s: string)
    ensures |s| > 0
    ensures forall i :: 0 <= i < |s| ==> '0' <= s[i] <= '9'
    decreases n
  {
    if n < 10 then [DigitChar(n)] else NatToString(n / 10) + [DigitChar(n % 10)]
  }

  function IntToString(n: int): string {
    if n < 0 then "-" + NatToString(-n) else NatToString(n)
  }

  /** Reads decimal digits back; the reference against which `NatToString` is checked. */
  function ParseNat(s: string): int
    decreases |s|
  {
    if |s| == 0 then 0 else ParseNat(s[..|s| - 1]) * 10 + DigitValue(s[|s| - 1])
  }

  function ParseInt(s: string): int {
    if |s| > 0 && s[0] == '-' then -ParseNat(s[1..]) else ParseNat(s)
  }

  lemma {:induction false} NatToStringRoundTrip(n: nat)
    ensures ParseNat(NatToString(n)) == n
    decreases n
  {
    var s := NatToString(n);
    if n >= 10 {
      NatToStringRoundTrip(n / 10);
      assert s[..|s| - 1] == NatToString(n / 10);
    }
  }

  /** The decimal text of a value reads back as that value. */
  lemma IntToStringRoundTrip(n: int)
    ensures ParseInt(IntToString(n)) == n
  {
    if n < 0 {
      NatToStringRoundTrip(-n);
      assert IntToString(n)[1..] == NatToString(-n);
    } else {
      NatToStringRoundTrip(n);
    }
  }

  /** The decimal text of a value is a single word on a single line. */
  lemma IntToStringPlain(n: int)
    ensures ' ' !in IntToString(n) && '\n' !in IntToString(n)
  {
    var d := NatToString(if n < 0 then -n else n);
    assert ' ' !in d && '\n' !in d;
    if n < 0 {
      assert IntToString(n) == ['-'] + d;
    }
  }

  // ---------------------------------------------------------------------------
  // #define prefix

  /** `#define K V` for one entry of the define map, without the newline. */
  function DefineBody(e: (string, int)): string {
    "#define" + [' '] + e.0 + [' '] + IntToString(e.1)
  }

  function DefineLine(e: (string, int)): string {
    DefineBody(e) + ['\n']
  }

  /** The define block: one line per entry of the map, in enumeration order
      (a `Dictionary` filled only by `Add` enumerates in insertion order). */
  function DefinesPrefix(es: seq<(string, int)>): string
    decreases |es|
  {
    if |es| == 0 then "" else DefineLine(es[0]) + DefinesPrefix(es[1..])
  }

  lemma {:induction false} DefinesPrefixAppend(es: seq<(string, int)>, e: (string, int))
    ensures DefinesPrefix(es + [e]) == DefinesPrefix(es) + DefineLine(e)
    decreases |es|
  {
    if |es| == 0 {
      assert es + [e] == [e];
    } else {
      assert (es + [e])[1..] == es[1..] + [e];
      DefinesPrefixAppend(es[1..], e);
    }
  }

  /** The `foreach` loop of `LoadGLShader` that concatenates the define lines. */
  method BuildDefines(es: seq<(string, int)>) returns (defines: string)
    ensures defines == DefinesPrefix(es)
  {
    defines := "";
    var i := 0;
    while i < |es|
      invariant 0 <= i <= |es|
      invariant defines == DefinesPrefix(es[..i])
    {
      DefinesPrefixAppend(es[..i], es[i]);
      assert es[..i + 1] == es[..i] + [es[i]];
      defines := defines + DefineLine(es[i]);
      i := i + 1;
    }
    assert es[..i] == es;
  }

  /** A name the define block can carry without changing its line structure. */
  predicate PlainKey(k: string) {
    ' ' !in k && '\n' !in k
  }

  /** How the GLSL preprocessor reads one define line back: the second and third words. */
  function ParseDefineLine(l: string): (string, int) {
    var words := Split(l, ' ');
    if |words| >= 3 then (words[1], ParseInt(words[2])) else ("", 0)
  }

  /** How the preprocessor reads a define block back: one entry per complete line. */
  function ParseDefines(s: string): seq<(string, int)> {
    var lines := Split(s, '\n');
    seq(|lines| - 1, i requires 0 <= i < |lines| - 1 => ParseDefineLine(lines[i]))
  }

  /** Three separator-free words joined by the separator split back into them. */
  lemma SplitThree(a: string, b: string, c: string, sep: char)
    requires sep !in a && sep !in b && sep !in c
    ensures Split(a + [sep] + b + [sep] + c, sep) == [a, b, c]
  {
    SplitJoin([a, b, c], sep);
    assert Join([a, b, c], sep) == a + [sep] + Join([b, c], sep);
    assert Join([b, c], sep) == b + [sep] + c;
    assert a + [sep] + b + [sep] + c == a + [sep] + (b + [sep] + c);
  }

  lemma DefineBodyReadsBack(e: (string, int))
    requires PlainKey(e.0)
    ensures '\n' !in DefineBody(e)
    ensures ParseDefineLine(DefineBody(e)) == e
  {
    var v := IntToString(e.1);
    IntToStringRoundTrip(e.1);
    IntToStringPlain(e.1);
    var d := "#define";
    assert ' ' !in d && '\n' !in d;
    SplitThree(d, e.0, v, ' ');
  }

  /** The define bodies, one per entry. */
  function Bodies(es: seq<(string, int)>): seq<string> {
    seq(|es|, i requires 0 <= i < |es| => DefineBody(es[i]))
  }

  /** The define block is its bodies, each followed by a newline. */
  lemma {:induction false} DefinesPrefixUnlines(es: seq<(string, int)>)
    ensures DefinesPrefix(es) == Unlines(Bodies(es))
    decreases |es|
  {
    if |es| > 0 {
      DefinesPrefixUnlines(es[1..]);
      assert Bodies(es)[1..] == Bodies(es[1..]);
    }
  }

  /** Newline-free lines, each followed by a newline, split back into those lines
      and the empty remainder after the last newline. */
  lemma {:induction false} SplitUnlines(ls: seq<string>)
    requires forall i :: 0 <= i < |ls| ==> '\n' !in ls[i]
    ensures Split(Unlines(ls), '\n') == ls + [""]
    decreases |ls|
  {
    if |ls| > 0 {
      var rest := Unlines(ls[1..]);
      SplitUnlines(ls[1..]);
      SplitPrefix(ls[0], ['\n'] + rest, '\n');
      SplitSep(rest, '\n');
      assert Unlines(ls) == ls[0] + (['\n'] + rest);
      assert ls[0] + "" == ls[0];
      assert ls + [""] == [ls[0]] + (ls[1..] + [""]);
    }
  }

  /** A block whose complete lines each read back as one entry reads back as those entries. */
  lemma ParseCompleteLines(s: string, ls: seq<string>, es: seq<(string, int)>)
    requires Split(s, '\n') == ls + [""]
    requires |ls| == |es|
    requires forall i :: 0 <= i < |ls| ==> ParseDefineLine(ls[i]) == es[i]
    ensures ParseDefines(s) == es
  {
    var lines := Split(s, '\n');
    forall i | 0 <= i < |es| ensures ParseDefines(s)[i] == es[i] {
      assert lines[i] == ls[i];
    }
  }

  /** The define block reads back as exactly the map's entries, in order. */
  lemma DefinesRoundTrip(es: seq<(string, int)>)
    requires forall i :: 0 <= i < |es| ==> PlainKey(es[i].0)
    ensures ParseDefines(DefinesPrefix(es)) == es
  {
    var bodies := Bodies(es);
    forall i | 0 <= i < |es| ensures '\n' !in bodies[i] && ParseDefineLine(bodies[i]) == es[i] {
      DefineBodyReadsBack(es[i]);
    }
    DefinesPrefixUnlines(es);
    SplitUnlines(bodies);
    ParseCompleteLines(DefinesPrefix(es), bodies, es);
  }

  // ---------------------------------------------------------------------------
  // Reading shader files with #include expansion

  /** How a line is cut into words: as written (`line.Split(" ", -1)`) or as intended. */
  datatype Tokenizer = CountMinusOne | Unlimited

  /** `String.Split(string separator, int count)`: at most `count` pieces, the last
      holding the rest; a negative count raises ArgumentOutOfRangeException. */
  function SplitWithCount(s: string, count: int): Result<seq<string>> {
    if count < 0 then Err(ArgumentOutOfRange)
    else if count == 0 then Ok([])
    else
      var parts := Split(s, ' ');
      if |parts| <= count then Ok(parts) else Ok(parts[..count - 1] + [Join(parts[count - 1..], ' ')])
  }

  function Tokenize(line: string, how: Tokenizer): Result<seq<string>> {
    match how
    case CountMinusOne => SplitWithCount(line, -1)
    case Unlimited => Ok(Split(line, ' '))
  }

  /** `Replace("\"", "")`. */
  function RemoveQuotes(s: string): (r: string)
    ensures '"' !in r
    ensures '"' !in s ==> r == s
    ensures |r| <= |s|
    decreases |s|
  {
    if |s| == 0 then ""
    else if s[0] == '"' then RemoveQuotes(s[1..])
    else [s[0]] + RemoveQuotes(s[1..])
  }

  /** The outcome of expanding the lines of one file. */
  datatype Expansion = Text(s: string) | Thrown | Diverged

  function Prepend(s: string, e: Expansion): Expansion {
    match e
    case Text(t) => Text(s + t)
    case _ => e
  }

  /** `ReadShaderFileFromAssets(context, name)`. Any exception inside the read (a
      missing asset, a self-include, a malformed directive) is caught and the whole
      file reads as ""; `None` stands for recursion deeper than `fuel`, which in the
      program is a stack overflow. */
  function ReadWith(fs: map<string, seq<string>>, name: string, fuel: nat, how: Tokenizer): (r: Option<string>)
    ensures name !in fs || |fs[name]| == 0 ==> r == Some("")
    ensures r.None? ==> how == Unlimited && exists i :: 0 <= i < |fs[name]| && IsDirective(fs[name][i])
    decreases fuel, 1, 0
  {
    if name !in fs then Some("")
    else
      match ExpandLines(fs, name, fs[name], fuel, how)
      case Text(s) => Some(s)
      case Thrown => Some("")
      case Diverged => None
  }

  /** The `while (ReadLine)` loop of one file: a line whose first word is `#include`
      is replaced by the expansion of the file its second word names (quotes removed),
      every other line is copied followed by a newline. */
  function ExpandLines(fs: map<string, seq<string>>, name: string, lines: seq<string>, fuel: nat, how: Tokenizer): (r: Expansion)
    ensures |lines| == 0 ==> r == Text("")
    ensures how == CountMinusOne && |lines| > 0 ==> r == Thrown
    ensures r.Diverged? ==> how == Unlimited && exists i :: 0 <= i < |lines| && IsDirective(lines[i])
    decreases fuel, 0, |lines|
  {
    if |lines| == 0 then Text("")
    else
      match Tokenize(lines[0], how)
      case Err(_) => Thrown
      case Ok(words) =>
        if |words| == 0 then Thrown
        else if words[0] == "#include" then
          if |words| < 2 then Thrown
          else
            var target := RemoveQuotes(words[1]);
            if target == name then Thrown
            else if fuel == 0 then Diverged
            else
              match ReadWith(fs, target, fuel - 1, how)
              case None => Diverged
              case Some(t) => Prepend(t, ExpandLines(fs, name, lines[1..], fuel, how))
        else Prepend(lines[0] + "\n", ExpandLines(fs, name, lines[1..], fuel, how))
  }

  /** The reading `LoadGLShader` relies on, with the line split the code evidently intends. */
  function ReadShaderFile(fs: map<string, seq<string>>, name: string, fuel: nat): (r: Option<string>)
    ensures name !in fs ==> r == Some("")
    ensures r.Some? ==> ReadWith(fs, name, fuel + 1, Unlimited) == r
  {
    ReadMoreFuel(fs, name, fuel, fuel + 1, Unlimited);
    ReadWith(fs, name, fuel, Unlimited)
  }

  /** The fuel bound only ever cuts off a reading: once a file reads with some
      fuel, it reads the same with any more. */
  lemma {:induction false} ReadMoreFuel(fs: map<string, seq<string>>, name: string, fuel: nat, more: nat, how: Tokenizer)
    requires fuel <= more
    ensures ReadWith(fs, name, fuel, how).Some? ==> ReadWith(fs, name, more, how) == ReadWith(fs, name, fuel, how)
    decreases fuel, 1, 0
  {
    if name in fs {
      ExpandMoreFuel(fs, name, fs[name], fuel, more, how);
    }
  }

  lemma {:induction false} ExpandMoreFuel(fs: map<string, seq<string>>, name: string, lines: seq<string>, fuel: nat, more: nat, how: Tokenizer)
    requires fuel <= more
    ensures !ExpandLines(fs, name, lines, fuel, how).Diverged? ==>
      ExpandLines(fs, name, lines, more, how) == ExpandLines(fs, name, lines, fuel, how)
    decreases fuel, 0, |lines|
  {
    if |lines| > 0 && Tokenize(lines[0], how).Ok? {
      var words := Tokenize(lines[0], how).value;
      if |words| > 0 && words[0] == "#include" && |words| >= 2 && RemoveQuotes(words[1]) != name {
        var target := RemoveQuotes(words[1]);
        if fuel > 0 {
          ReadMoreFuel(fs, target, fuel - 1, more - 1, how);
        }
        ExpandMoreFuel(fs, name, lines[1..], fuel, more, how);
      } else if |words| > 0 && words[0] != "#include" {
        ExpandMoreFuel(fs, name, lines[1..], fuel, more, how);
      }
    }
  }

  /** The reading as written, where every line goes through `Split(" ", -1)`. */
  function ReadShaderFileAsWritten(fs: map<string, seq<string>>, name: string, fuel: nat): (r: Option<string>)
    ensures r == Some("")
  {
    AsWrittenReadsEmpty(fs, name, fuel);
    ReadWith(fs, name, fuel, CountMinusOne)
  }

  predicate IsDirective(line: string) {
    Split(line, ' ')[0] == "#include"
  }

  /** The line includes `target` by name. */
  predicate Includes(line: string, target: string) {
    var words := Split(line, ' ');
    |words| >= 2 && words[0] == "#include" && RemoveQuotes(words[1]) == target
  }

  /** Each line followed by a newline. */
  function Unlines(lines: seq<string>): string
    decreases |lines|
  {
    if |lines| == 0 then "" else lines[0] + "\n" + Unlines(lines[1..])
  }

  /** As written, every file reads as "": the first line already raises inside Split. */
  lemma AsWrittenReadsEmpty(fs: map<string, seq<string>>, name: string, fuel: nat)
    ensures ReadWith(fs, name, fuel, CountMinusOne) == Some("")
  {
    if name in fs && |fs[name]| > 0 {
      assert Tokenize(fs[name][0], CountMinusOne).Err?;
      assert ExpandLines(fs, name, fs[name], fuel, CountMinusOne) == Thrown;
    } else if name in fs {
      assert ExpandLines(fs, name, fs[name], fuel, CountMinusOne) == Text("");
    }
  }

  /** A file without directives reads as its lines, each followed by a newline. */
  lemma {:induction false} ExpandPlain(fs: map<string, seq<string>>, name: string, lines: seq<string>, fuel: nat)
    requires forall i :: 0 <= i < |lines| ==> !IsDirective(lines[i])
    ensures ExpandLines(fs, name, lines, fuel, Unlimited) == Text(Unlines(lines))
    decreases |lines|
  {
    if |lines| > 0 {
      assert !IsDirective(lines[0]);
      ExpandPlain(fs, name, lines[1..], fuel);
    }
  }

  lemma ReadPlainFile(fs: map<string, seq<string>>, name: string, fuel: nat)
    requires name in fs
    requires forall i :: 0 <= i < |fs[name]| ==> !IsDirective(fs[name][i])
    ensures ReadShaderFile(fs, name, fuel) == Some(Unlines(fs[name]))
  {
    ExpandPlain(fs, name, fs[name], fuel);
  }

  /** Any non-empty file without directives is lost by the reading as written,
      while the intended reading returns its text. */
  lemma AsWrittenLosesSource(fs: map<string, seq<string>>, name: string, fuel: nat)
    requires name in fs && |fs[name]| > 0
    requires forall i :: 0 <= i < |fs[name]| ==> !IsDirective(fs[name][i])
    ensures ReadShaderFile(fs, name, fuel) != Some("")
    ensures ReadShaderFileAsWritten(fs, name, fuel) == Some("")
  {
    ReadPlainFile(fs, name, fuel);
    AsWrittenReadsEmpty(fs, name, fuel);
    assert |Unlines(fs[name])| > 0;
  }

  /** A missing asset reads as "". */
  lemma ReadMissingFile(fs: map<string, seq<string>>, name: string, fuel: nat)
    requires name !in fs
    ensures ReadShaderFile(fs, name, fuel) == Some("")
  {
  }

  /** Lines holding a directive that names their own file never expand to text. */
  lemma {:induction false} ExpandSelfInclude(fs: map<string, seq<string>>, name: string, lines: seq<string>, fuel: nat, k: int)
    requires 0 <= k < |lines| && Includes(lines[k], name)
    ensures !ExpandLines(fs, name, lines, fuel, Unlimited).Text?
    decreases |lines|
  {
    if k > 0 {
      ExpandSelfInclude(fs, name, lines[1..], fuel, k - 1);
    }
  }

  /** A file that includes itself by name reads as "" (the guard's exception is
      caught by the same call), unless an earlier directive recursed without end. */
  lemma SelfIncludeReadsEmpty(fs: map<string, seq<string>>, name: string, fuel: nat, k: int)
    requires name in fs && 0 <= k < |fs[name]| && Includes(fs[name][k], name)
    ensures ReadShaderFile(fs, name, fuel) == Some("") || ReadShaderFile(fs, name, fuel) == None
  {
    ExpandSelfInclude(fs, name, fs[name], fuel, k);
  }

  /** Two files that include each other escape the name-only guard: the reading
      recurses without end whatever the depth allowed. */
  lemma {:induction false} MutualIncludeDiverges(fs: map<string, seq<string>>, a: string, b: string, fuel: nat)
    requires a != b && a in fs && b in fs
    requires |fs[a]| > 0 && Includes(fs[a][0], b)
    requires |fs[b]| > 0 && Includes(fs[b][0], a)
    ensures ReadShaderFile(fs, a, fuel) == None
    ensures ReadShaderFile(fs, b, fuel) == None
    decreases fuel
  {
    if fuel > 0 {
      MutualIncludeDiverges(fs, a, b, fuel - 1);
    }
    assert ExpandLines(fs, a, fs[a], fuel, Unlimited) == Diverged;
    assert ExpandLines(fs, b, fs[b], fuel, Unlimited) == Diverged;
  }

  // ---------------------------------------------------------------------------
  // Compiling

  /** `LoadGLShader(context, type, filename, defines)`: the source handed to the
      compiler is the define block followed by the file's text; a rejected source
      deletes the shader and raises, so a normal return is a fresh non-zero name. */
  function LoadGlShader(assets: Assets.Assets, g: Gpu, kind: int, filename: string, defines: seq<(string, int)>): (r: (Gpu, Result<int>))
    ensures ReadShaderFile(assets.text, filename, assets.includeDepth).None? ==> r == (g, Err(StackOverflow))
    ensures ReadShaderFile(assets.text, filename, assets.includeDepth).Some? ==>
      var source := DefinesPrefix(defines) + ReadShaderFile(assets.text, filename, assets.includeDepth).value;
      && (r.1.Ok? <==> source !in g.rejected)
      && (r.1.Err? ==> r == (g.(issued := g.issued + 1), Err(ShaderCreation)))
      && (r.1.Ok? ==> r.1.value != 0 && r.1.value > g.issued
                      && r.0 == g.(issued := r.1.value, shaders := g.shaders[r.1.value := ShaderObject(kind, source)]))
  {
    match ReadShaderFile(assets.text, filename, assets.includeDepth)
    case None => (g, Err(StackOverflow))
    case Some(code) =>
      var source := DefinesPrefix(defines) + code;
      var (g1, shader) := NewName(g);
      if source in g.rejected then (g1, Err(ShaderCreation))
      else (g1.(shaders := g1.shaders[shader := ShaderObject(kind, source)]), Ok(shader))
  }

  /** The overload without defines: the file's text is compiled unchanged. */
  lemma LoadWithoutDefines(assets: Assets.Assets, g: Gpu, kind: int, filename: string)
    requires ReadShaderFile(assets.text, filename, assets.includeDepth).Some?
    requires LoadGlShader(assets, g, kind, filename, []).1.Ok?
    ensures var r := LoadGlShader(assets, g, kind, filename, []);
            r.0.shaders[r.1.value].source == ReadShaderFile(assets.text, filename, assets.includeDepth).value
  {
    var code := ReadShaderFile(assets.text, filename, assets.includeDepth).value;
    assert DefinesPrefix([]) + code == code;
  }

  /** Two `LoadGLShader` calls and the program that links them, as every renderer
      builds its program: the vertex shader without defines, the fragment shader
      with the given ones. The first failing load raises. */
  function CompileProgram(assets: Assets.Assets, g: Gpu, vertexName: string, fragmentName: string,
                          defines: seq<(string, int)>): (r: (Gpu, Result<int>))
    ensures r.0.trace == g.trace && r.0.errors == g.errors && r.0.program == g.program
    ensures g.programs.Keys <= r.0.programs.Keys
    ensures r.1.Ok? ==> r.1.value > g.issued && r.1.value in r.0.programs && |r.0.programs[r.1.value]| == 2
    ensures r.1.Ok? ==> var shaders := r.0.programs[r.1.value];
            && shaders[0] in r.0.shaders && shaders[1] in r.0.shaders
            && r.0.shaders[shaders[0]].kind == VERTEX_SHADER
            && r.0.shaders[shaders[1]].kind == FRAGMENT_SHADER
            && DefinesPrefix(defines) <= r.0.shaders[shaders[1]].source
  {
    match LoadGlShader(assets, g, VERTEX_SHADER, vertexName, [])
    case (g1, Err(e)) => (g1, Err(e))
    case (g1, Ok(vs)) =>
      match LoadGlShader(assets, g1, FRAGMENT_SHADER, fragmentName, defines)
      case (g2, Err(e)) => (g2, Err(e))
      case (g2, Ok(fs)) =>
        var (g3, p) := LinkProgram(g2, vs, fs);
        (g3, Ok(p))
  }

  /** Compile and link a program, make it current with `glUseProgram`, and check the
      error queue after looking up its attributes ("Program creation") and again
      after its uniforms ("Program parameters"), as the background and object
      renderers do. The program field keeps `current` when loading a shader raises;
      once linked it holds the new program even if a check raises. */
  function BuildProgram(assets: Assets.Assets, g: Gpu, vertexName: string, fragmentName: string,
                        defines: seq<(string, int)>, current: int): (o: Out<int>)
    ensures o.gpu.trace == g.trace
    ensures g.programs.Keys <= o.gpu.programs.Keys
    ensures o.state == current || o.state > g.issued
    ensures |g.errors| > 0 ==> o.thrown.Some?
    ensures o.thrown.None? ==>
      && o.state > g.issued && o.state in o.gpu.programs && o.gpu.program == o.state
      && o.gpu.errors == [] && |g.errors| == 0
      && |o.gpu.programs[o.state]| == 2 && o.gpu.programs[o.state][1] in o.gpu.shaders
      && DefinesPrefix(defines) <= o.gpu.shaders[o.gpu.programs[o.state][1]].source
  {
    match CompileProgram(assets, g, vertexName, fragmentName, defines)
    case (g1, Err(e)) => Out(current, g1, Some(e))
    case (g1, Ok(program)) =>
      var (g2, e2) := CheckGlError(g1.(program := program), "Program creation");
      if e2.Some? then Out(program, g2, e2)
      else
        var (g3, e3) := CheckGlError(g2, "Program parameters");
        Out(program, g3, e3)
  }
}
