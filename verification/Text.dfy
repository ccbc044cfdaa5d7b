/** Text operations shared by the report scripts, on ASCII letters. */
module Text {

  function LowerChar(c: char): char {
    if 'A' <= c <= 'Z' then c - 'A' + 'a' else c
  }

  function UpperChar(c: char): char {
    if 'a' <= c <= 'z' then c - 'a' + 'A' else c
  }

  function Lower(s: string): string {
    seq(|s|, i requires 0 <= i < |s| => LowerChar(s[i]))
  }

  function Upper(s: string): string {
    seq(|s|, i requires 0 <= i < |s| => UpperChar(s[i]))
  }

  lemma LowerConcat(a: string, b: string)
    ensures Lower(a + b) == Lower(a) + Lower(b)
  {
  }

  predicate IsSpace(c: char) {
    c == ' ' || '\t' <= c <= '\r' || 28 <= c as int <= 31
  }

  function StripLeft(s: string): string {
    if s != "" && IsSpace(s[0]) then StripLeft(s[1..]) else s
  }

  function StripRight(s: string): string {
    if s != "" && IsSpace(s[|s| - 1]) then StripRight(s[..|s| - 1]) else s
  }

  function Strip(s: string): string {
    StripRight(StripLeft(s))
  }

  /** `s.rsplit("/", 1)[-1]`. */
  function AfterLastSlash(s: string): string {
    if s == "" || s[|s| - 1] == '/' then "" else AfterLastSlash(s[..|s| - 1]) + [s[|s| - 1]]
  }

  lemma {:induction false} AfterLastSlashOfPath(dir: string, base: string)
    requires '/' !in base
    ensures AfterLastSlash(dir + "/" + base) == base
  {
    var s := dir + "/" + base;
    if base != "" {
      var base0 := base[..|base| - 1];
      assert s[..|s| - 1] == dir + "/" + base0;
      assert s[|s| - 1] == base[|base| - 1];
      AfterLastSlashOfPath(dir, base0);
      assert base == base0 + [base[|base| - 1]];
    }
  }

  /** The last segment is a suffix, and shorter than any text that still has a slash. */
  lemma {:induction false} AfterLastSlashIsShort(dir: string, base: string)
    ensures |AfterLastSlash(dir + "/" + base)| <= |base|
    ensures '/' in base ==> |AfterLastSlash(dir + "/" + base)| < |base|
  {
    var s := dir + "/" + base;
    if base != "" && base[|base| - 1] != '/' {
      var base0 := base[..|base| - 1];
      assert s[..|s| - 1] == dir + "/" + base0;
      AfterLastSlashIsShort(dir, base0);
      assert base == base0 + [base[|base| - 1]];
    }
  }
}
