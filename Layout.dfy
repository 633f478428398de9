// On-disk layout of the template cache: the per-root directory names
// (`%02d` of the root's position), the compiled-file paths, the template
// source filter and the text of the published index module.

module Layout {

  datatype Option<T> = None | Some(value: T)

  /** The template source extension matched by `/\.kumis$/`. */
  const TemplateExtension: string := ".kumis"
  /** The extension appended to a compiled template. */
  const CompiledExtension: string := ".js"

  predicate EndsWith(s: string, suffix: string)
  {
    |suffix| <= |s| && s[|s| - |suffix|..] == suffix
  }

  /** A file is compiled exactly when its path ends in `.kumis`. */
  predicate IsTemplate(file: string)
  {
    EndsWith(file, TemplateExtension)
  }

  /** The path of `name` inside directory `dir`. */
  function Join(dir: string, name: string): string
  {
    dir + "/" + name
  }

  /** Filtering on the absolute path is the same as filtering on the path
      relative to the root: `.kumis` holds no separator, so the root never
      contributes to the matched suffix. */
  lemma TemplateByRelativeName(root: string, rel: string)
    ensures IsTemplate(Join(root, rel)) <==> IsTemplate(rel)
  {
    var f := Join(root, rel);
    var n := |TemplateExtension|;
    if |rel| >= n {
      assert f[|f| - n..] == rel[|rel| - n..];
    } else {
      assert f[|root|] == '/';
    }
  }

  // ----- decimal numbers, as written by sprintf('%02d', i) -----

  predicate IsDigit(c: char)
  {
    '0' <= c <= '9'
  }

  predicate AllDigits(s: string)
  {
    forall k :: 0 <= k < |s| ==> IsDigit(s[k])
  }

  function DigitChar(d: nat): (c: char)
    requires d < 10
    ensures IsDigit(c)
  {
    ('0' as int + d) as char
  }

  function DigitValue(c: char): (d: nat)
    requires IsDigit(c)
    ensures d < 10 && DigitChar(d) == c
  {
    c as int - '0' as int
  }

  /** The shortest decimal representation of `n`. */
  function Decimal(n: nat): (s: string)
    ensures 1 <= |s| && AllDigits(s)
    ensures |s| == 1 <==> n < 10
  {
    if n < 10 then [DigitChar(n)] else Decimal(n / 10) + [DigitChar(n % 10)]
  }

  /** `%02d`: the decimal representation, zero-padded to at least two digits. */
  function Pad2(n: nat): string
  {
    if n < 10 then "0" + Decimal(n) else Decimal(n)
  }

  /** Reads a digit string back as a number (leading zeros allowed). */
  function ParseDecimal(s: string): nat
    requires AllDigits(s)
  {
    if s == [] then 0 else ParseDecimal(s[..|s| - 1]) * 10 + DigitValue(s[|s| - 1])
  }

  lemma {:induction false} ParseDecimalOfDecimal(n: nat)
    ensures ParseDecimal(Decimal(n)) == n
  {
    if n >= 10 {
      var s := Decimal(n);
      assert s[..|s| - 1] == Decimal(n / 10);
      ParseDecimalOfDecimal(n / 10);
    }
  }

  /** A directory name is made only of digits, at least two of them, and
      reads back as the root position it was made from. */
  lemma Pad2RoundTrip(n: nat)
    ensures 2 <= |Pad2(n)| && AllDigits(Pad2(n))
    ensures ParseDecimal(Pad2(n)) == n
  {
    var s := Pad2(n);
    ParseDecimalOfDecimal(n);
    if n < 10 {
      assert s[..|s| - 1] == "0";
      assert ParseDecimal("0"[..0]) == 0;
    }
  }

  /** Distinct root positions never share a directory name. */
  lemma Pad2Injective(i: nat, j: nat)
    requires Pad2(i) == Pad2(j)
    ensures i == j
  {
    Pad2RoundTrip(i);
    Pad2RoundTrip(j);
  }

  /** Exactly two digits for the first hundred roots; a longer name beyond. */
  lemma {:induction false} Pad2Width(n: nat)
    ensures |Pad2(n)| == 2 <==> n < 100
  {
    if n >= 10 {
      assert |Decimal(n)| == |Decimal(n / 10)| + 1;
    }
  }

  // ----- cache paths -----

  /** `<cacheDir>/kumis/templates`, the directory of all compiled roots. */
  function TemplatesDir(cacheDir: string): string
  {
    cacheDir + "/kumis/templates"
  }

  /** `<cacheDir>/kumis/templates.js`, the published index module. */
  function IndexFile(cacheDir: string): string
  {
    cacheDir + "/kumis/templates.js"
  }

  /** `<cacheDir>/kumis/templates/<NN>`, the directory of root number `i`. */
  function TargetDir(cacheDir: string, i: nat): string
  {
    TemplatesDir(cacheDir) + "/" + Pad2(i)
  }

  /** `<cacheDir>/kumis/templates/<NN>/<rel>.js`, the compiled form of the
      template `rel` of root number `i`. */
  function TargetPath(cacheDir: string, i: nat, rel: string): string
  {
    TargetDir(cacheDir, i) + "/" + (rel + CompiledExtension)
  }

  /** The position of the first `/` in `s`, or `|s|` when there is none. */
  function FirstSeparator(s: string): (k: nat)
    ensures k <= |s|
  {
    if s == [] || s[0] == '/' then 0 else 1 + FirstSeparator(s[1..])
  }

  lemma {:induction false} SeparatorAfterDigits(x: string, rest: string)
    requires AllDigits(x)
    ensures FirstSeparator(x + "/" + rest) == |x|
  {
    if x != [] {
      assert (x + "/" + rest)[1..] == x[1..] + "/" + rest;
      SeparatorAfterDigits(x[1..], rest);
    }
  }

  /** After a common prefix, a digit string followed by a separator is read
      back unambiguously. */
  lemma DigitsThenSeparator(p: string, a: string, x: string, b: string, y: string)
    requires AllDigits(a) && AllDigits(b)
    requires p + a + "/" + x == p + b + "/" + y
    ensures a == b && x == y
  {
    var s := p + a + "/" + x;
    assert s[|p|..] == a + "/" + x;
    assert s[|p|..] == b + "/" + y;
    var t := s[|p|..];
    SeparatorAfterDigits(a, x);
    SeparatorAfterDigits(b, y);
    assert a == t[..|a|] && b == t[..|b|];
    assert x == t[|a| + 1..] && y == t[|b| + 1..];
  }

  /** Distinct root positions never share a directory. */
  lemma TargetDirInjective(cacheDir: string, i: nat, j: nat)
    requires TargetDir(cacheDir, i) == TargetDir(cacheDir, j)
    ensures i == j
  {
    var k := |TemplatesDir(cacheDir)| + 1;
    assert TargetDir(cacheDir, i)[k..] == Pad2(i);
    assert TargetDir(cacheDir, j)[k..] == Pad2(j);
    Pad2Injective(i, j);
  }

  /** Two compiled files share a path only when they come from the same root
      position and the same relative path: the padded number ends at the
      first separator after the templates directory. */
  lemma TargetPathInjective(cacheDir: string, i: nat, rel: string, j: nat, rel': string)
    requires TargetPath(cacheDir, i, rel) == TargetPath(cacheDir, j, rel')
    ensures i == j && rel == rel'
  {
    var x, y := rel + CompiledExtension, rel' + CompiledExtension;
    Pad2RoundTrip(i);
    Pad2RoundTrip(j);
    DigitsThenSeparator(TemplatesDir(cacheDir) + "/", Pad2(i), x, Pad2(j), y);
    Pad2Injective(i, j);
    assert rel == x[..|rel|] && rel' == y[..|rel'|];
  }

  /** The published index never lands on a compiled template's path. */
  lemma IndexFileIsNotCompiled(cacheDir: string, i: nat, rel: string)
    ensures IndexFile(cacheDir) != TargetPath(cacheDir, i, rel)
  {
  }

  // ----- the published text -----

  const ExportsPrefix: string := "module.exports = "
  const ExportsSuffix: string := ";\n"

  /** The module text that assigns the serialized index to `module.exports`. */
  function Exports(body: string): string
  {
    ExportsPrefix + body + ExportsSuffix
  }

  /** What a loader gets back from an index module's text. */
  function ExportedBody(text: string): Option<string>
  {
    var p, q := |ExportsPrefix|, |ExportsSuffix|;
    if p + q <= |text| && text[..p] == ExportsPrefix && text[|text| - q..] == ExportsSuffix
    then Some(text[p..|text| - q])
    else None
  }

  lemma ExportsRoundTrip(body: string)
    ensures ExportedBody(Exports(body)) == Some(body)
  {
  }
}
