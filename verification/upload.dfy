/**
  The upload file-name check `allowed_file` (app.py): a name is accepted
  when it has a dot and the text after its last dot, lower-cased, is one
  of the image extensions.
 */
module Upload {

  /** `ALLOWED_EXTENSIONS`. */
  const Extensions: set<string> := {"png", "jpg", "jpeg"}

  /**
    Lower-cases one character. Only ASCII letters are folded; Python's
    `str.lower` also folds other scripts, but no character outside `A`-`Z`
    lower-cases to a letter of the three extensions, so membership in
    `Extensions` is decided the same way.
   */
  function LowerChar(c: char): char {
    if 'A' <= c <= 'Z' then (c as int - 'A' as int + 'a' as int) as char else c
  }

  /** `str.lower` on the text of a file name. */
  function Lower(s: string): string {
    seq(|s|, i requires 0 <= i < |s| => LowerChar(s[i]))
  }

  /**
    `filename.rsplit('.', 1)[1]` when the name has a dot: the longest
    dot-free suffix of `f`. Without a dot it is the whole name.
   */
  function AfterLastDot(f: string): (e: string)
    ensures |e| <= |f| && e == f[|f| - |e|..]
    ensures '.' !in e
    ensures '.' in f ==> f[|f| - |e| - 1] == '.'
    ensures '.' !in f ==> e == f
  {
    if |f| == 0 then ""
    else if f[|f| - 1] == '.' then ""
    else
      var init := f[..|f| - 1];
      var e := AfterLastDot(init) + [f[|f| - 1]];
      assert f == init + [f[|f| - 1]];
      e
  }

  /** `allowed_file(filename)`. */
  predicate AllowedFile(f: string) {
    '.' in f && Lower(AfterLastDot(f)) in Extensions
  }

  /**
    The check in terms of where the last dot sits: a name is allowed exactly
    when some dot in it is followed by a dot-free extension that lower-cases
    to png, jpg or jpeg. In particular a name without a dot is refused.
   */
  lemma AllowedFileIff(f: string)
    ensures AllowedFile(f) <==>
      exists i :: 0 <= i < |f| && f[i] == '.' && '.' !in f[i + 1..] && Lower(f[i + 1..]) in Extensions
    ensures '.' !in f ==> !AllowedFile(f)
  {
    var e := AfterLastDot(f);
    if AllowedFile(f) {
      var i := |f| - |e| - 1;
      assert f[i + 1..] == e;
    }
    if exists i :: 0 <= i < |f| && f[i] == '.' && '.' !in f[i + 1..] && Lower(f[i + 1..]) in Extensions {
      var i :| 0 <= i < |f| && f[i] == '.' && '.' !in f[i + 1..] && Lower(f[i + 1..]) in Extensions;
      LastDotIsUnique(f, i);
    }
  }

  /** A dot with no dot after it is the dot `AfterLastDot` splits at. */
  lemma LastDotIsUnique(f: string, i: int)
    requires 0 <= i < |f| && f[i] == '.' && '.' !in f[i + 1..]
    ensures AfterLastDot(f) == f[i + 1..]
  {
    var e := AfterLastDot(f);
    assert '.' in f by { assert f[i] == '.'; }
    var j := |f| - |e| - 1;
    assert j == i;
  }

  /** Lower-case ASCII letters only. */
  predicate LowerLetters(x: string) {
    forall i :: 0 <= i < |x| ==> 'a' <= x[i] <= 'z'
  }

  /**
    `e` spells `x` with any mix of upper- and lower-case letters: each
    character is the letter of `x` or the letter 32 code points below it.
   */
  predicate CaseVariant(e: string, x: string) {
    && |e| == |x|
    && forall i :: 0 <= i < |x| ==> e[i] == x[i] || e[i] as int == x[i] as int - 32
  }

  /** Lower-casing yields a lower-case word exactly from its case variants. */
  lemma LowerIffCaseVariant(e: string, x: string)
    requires LowerLetters(x)
    ensures Lower(e) == x <==> CaseVariant(e, x)
  {
    if CaseVariant(e, x) {
      assert forall i :: 0 <= i < |x| ==> Lower(e)[i] == x[i];
    }
  }

  /** An extension is accepted exactly when it spells one of the three in any case. */
  lemma ExtensionCaseIff(e: string)
    ensures Lower(e) in Extensions <==>
      CaseVariant(e, "png") || CaseVariant(e, "jpg") || CaseVariant(e, "jpeg")
  {
    assert Lower(e) in Extensions <==> Lower(e) == "png" || Lower(e) == "jpg" || Lower(e) == "jpeg";
    LowerIffCaseVariant(e, "png");
    LowerIffCaseVariant(e, "jpg");
    LowerIffCaseVariant(e, "jpeg");
  }

  /**
    The upload check in terms of letter case alone: a name is allowed exactly
    when it has a dot and its extension is png, jpg or jpeg in any mix of
    upper and lower case, so `photo.JPG` and `scan.JpEg` pass and `photo.jpgx` does not.
   */
  lemma AllowedFileCaseIff(f: string)
    ensures AllowedFile(f) <==>
      '.' in f &&
      (CaseVariant(AfterLastDot(f), "png") || CaseVariant(AfterLastDot(f), "jpg") || CaseVariant(AfterLastDot(f), "jpeg"))
  {
    ExtensionCaseIff(AfterLastDot(f));
  }
}
