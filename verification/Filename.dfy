/** `sanitize_filename`: the last path component with everything but letters, digits and `-_.` replaced, and
    runs of dots collapsed by replacing pairs until none is left. */
module Filename {
  import opened Wrappers

  // --- The path component ----------------------------------------------------------------------

  /** The pieces between slashes. */
  function Split(s: string): (r: seq<string>)
    ensures |r| >= 1
  {
    if s == "" then [""]
    else
      var rest := Split(s[1..]);
      if s[0] == '/' then [""] + rest else [[s[0]] + rest[0]] + rest[1..]
  }

  function NonTrivial(parts: seq<string>): seq<string> {
    if parts == [] then []
    else (if parts[0] == "" || parts[0] == "." then [] else [parts[0]]) + NonTrivial(parts[1..])
  }

  /** `Path::file_name` on Unix. */
  function FileName(s: string): Option<string> {
    var parts := NonTrivial(Split(s));
    if parts == [] || parts[|parts| - 1] == ".." then None else Some(parts[|parts| - 1])
  }

  // --- Characters ----------------------------------------------------------------------------

  /** `char::is_alphanumeric`; `unicode` decides outside ASCII. */
  predicate IsAlphanumeric(c: char, unicode: char -> bool) {
    if c < 128 as char then 'a' <= c <= 'z' || 'A' <= c <= 'Z' || '0' <= c <= '9' else unicode(c)
  }

  predicate Allowed(c: char, unicode: char -> bool) {
    IsAlphanumeric(c, unicode) || c == '-' || c == '_' || c == '.'
  }

  function Masked(s: string, unicode: char -> bool): (r: string)
    ensures |r| == |s|
  {
    if s == "" then ""
    else Masked(s[..|s| - 1], unicode) + [if Allowed(s[|s| - 1], unicode) then s[|s| - 1] else '_']
  }

  // --- Dots ----------------------------------------------------------------------------------

  predicate HasPair(s: string) {
    |s| >= 2 && ((s[0] == '.' && s[1] == '.') || HasPair(s[1..]))
  }

  /** `replace("..", ".")`: from left to right, without overlaps. */
  function ReplacePairs(s: string): string {
    if s == "" then ""
    else if |s| >= 2 && s[0] == '.' && s[1] == '.' then "." + ReplacePairs(s[2..])
    else [s[0]] + ReplacePairs(s[1..])
  }

  /** Every run of dots as a single dot. */
  function Collapse(s: string): string {
    if s == "" then ""
    else if |s| >= 2 && s[0] == '.' && s[1] == '.' then Collapse(s[1..])
    else [s[0]] + Collapse(s[1..])
  }

  lemma {:induction false} CollapseStart(s: string)
    ensures (Collapse(s) == "" <==> s == "") && (s != "" ==> Collapse(s)[0] == s[0])
  {
    if |s| >= 2 && s[0] == '.' && s[1] == '.' { CollapseStart(s[1..]); }
  }

  lemma CollapseCons(c: char, s: string)
    ensures Collapse([c] + s) == if c == '.' && s != "" && s[0] == '.' then Collapse(s) else [c] + Collapse(s)
  {
    assert ([c] + s)[1..] == s;
  }

  lemma {:induction false} ReplaceStart(s: string)
    ensures (ReplacePairs(s) == "" <==> s == "") && (s != "" ==> ReplacePairs(s)[0] == s[0])
  {
  }

  /** Replacing pairs does not change what the runs collapse to. */
  lemma {:induction false} ReplaceCollapses(s: string)
    ensures Collapse(ReplacePairs(s)) == Collapse(s)
  {
    if s == "" {
    } else if |s| >= 2 && s[0] == '.' && s[1] == '.' {
      ReplaceCollapses(s[2..]);
      ReplaceStart(s[2..]);
      CollapseCons('.', ReplacePairs(s[2..]));
      CollapseCons('.', s[2..]);
      assert s[1..] == ['.'] + s[2..];
    } else {
      ReplaceCollapses(s[1..]);
      ReplaceStart(s[1..]);
      CollapseCons(s[0], ReplacePairs(s[1..]));
    }
  }

  lemma {:induction false} ReplaceShrinks(s: string)
    ensures |ReplacePairs(s)| <= |s| && (HasPair(s) ==> |ReplacePairs(s)| < |s|)
  {
    if s == "" {
    } else if |s| >= 2 && s[0] == '.' && s[1] == '.' {
      ReplaceShrinks(s[2..]);
    } else {
      ReplaceShrinks(s[1..]);
    }
  }

  lemma {:induction false} CollapseFixed(s: string)
    ensures !HasPair(s) ==> Collapse(s) == s
    ensures !HasPair(Collapse(s))
  {
    if s != "" {
      CollapseFixed(s[1..]);
      CollapseStart(s[1..]);
      if !(|s| >= 2 && s[0] == '.' && s[1] == '.') {
        assert Collapse(s)[1..] == Collapse(s[1..]);
      }
    }
  }

  // --- Sanitizing ----------------------------------------------------------------------------

  /** What sanitizing yields: the masked component with its runs of dots collapsed, made safe at the front. */
  function Sanitized(filename: string, unicode: char -> bool): string {
    var name := FileName(filename);
    var collapsed := Collapse(Masked(if name.Some? then name.value else filename, unicode));
    if collapsed == "" then "unnamed_file"
    else if collapsed[0] == '.' then "safe_" + collapsed
    else collapsed
  }

  method SanitizeFilename(filename: string, unicode: char -> bool) returns (cleaned: string)
    ensures cleaned == Sanitized(filename, unicode)
  {
    var name := FileName(filename);
    var base := if name.Some? then name.value else filename;
    var sanitized := "";
    for i := 0 to |base|
      invariant sanitized == Masked(base[..i], unicode)
    {
      assert base[..i + 1][..i] == base[..i];
      if Allowed(base[i], unicode) {
        sanitized := sanitized + [base[i]];
      } else {
        sanitized := sanitized + ['_'];
      }
    }
    assert base[..|base|] == base;
    ReplaceCollapses(sanitized);
    cleaned := ReplacePairs(sanitized);
    while HasPair(cleaned)
      invariant Collapse(cleaned) == Collapse(sanitized)
      decreases |cleaned|
    {
      ReplaceShrinks(cleaned);
      ReplaceCollapses(cleaned);
      cleaned := ReplacePairs(cleaned);
    }
    CollapseFixed(cleaned);
    if cleaned != "" && cleaned[0] == '.' {
      cleaned := "safe_" + cleaned;
    }
    if cleaned == "" {
      cleaned := "unnamed_file";
    }
  }

  // --- What it is for ------------------------------------------------------------------------

  ghost predicate AllAllowed(s: string, unicode: char -> bool) {
    forall c <- s :: Allowed(c, unicode)
  }

  lemma {:induction false} MaskedAllowed(s: string, unicode: char -> bool)
    ensures AllAllowed(Masked(s, unicode), unicode)
    ensures AllAllowed(s, unicode) ==> Masked(s, unicode) == s
  {
    if s != "" {
      MaskedAllowed(s[..|s| - 1], unicode);
      assert s == s[..|s| - 1] + [s[|s| - 1]];
    }
  }

  lemma {:induction false} CollapseKeeps(s: string, unicode: char -> bool)
    requires AllAllowed(s, unicode)
    ensures AllAllowed(Collapse(s), unicode)
  {
    if s != "" {
      assert AllAllowed(s[1..], unicode) && s[0] in s;
      CollapseKeeps(s[1..], unicode);
    }
  }

  ghost predicate Safe(s: string, unicode: char -> bool) {
    s != "" && s[0] != '.' && !HasPair(s) && AllAllowed(s, unicode)
  }

  lemma SafePrefix(s: string, unicode: char -> bool)
    requires s != "" && s[0] == '.' && !HasPair(s) && AllAllowed(s, unicode)
    ensures Safe("safe_" + s, unicode)
  {
    var t := "safe_" + s;
    assert t[5..] == s;
    assert t[1..][1..] == t[2..] && t[2..][1..] == t[3..] && t[3..][1..] == t[4..] && t[4..][1..] == t[5..];
    assert !HasPair(t[4..]) && !HasPair(t[3..]) && !HasPair(t[2..]) && !HasPair(t[1..]);
    forall c | c in t ensures Allowed(c, unicode) {
      assert c in "safe_" || c in s;
    }
  }

  lemma {:induction false} NoDotsNoPair(s: string)
    requires '.' !in s
    ensures !HasPair(s)
  {
    if |s| >= 2 { NoDotsNoPair(s[1..]); }
  }

  lemma DefaultIsSafe(unicode: char -> bool)
    ensures Safe("unnamed_file", unicode)
  {
    hide HasPair;
    assert AllAllowed("unnamed_file", unicode);
    hide AllAllowed;
    NoDotsNoPair("unnamed_file");
  }

  /** The result is never empty, has only allowed characters, no two dots in a row, and no dot in front. */
  lemma SanitizedIsSafe(filename: string, unicode: char -> bool)
    ensures Safe(Sanitized(filename, unicode), unicode)
  {
    var name := FileName(filename);
    var base := if name.Some? then name.value else filename;
    var collapsed := Collapse(Masked(base, unicode));
    MaskedAllowed(base, unicode);
    CollapseKeeps(Masked(base, unicode), unicode);
    CollapseFixed(Masked(base, unicode));
    DefaultIsSafe(unicode);
    hide AllAllowed, Collapse, Masked, FileName, HasPair;
    if collapsed != "" && collapsed[0] == '.' {
      SafePrefix(collapsed, unicode);
    }
  }

  lemma {:induction false} SplitPlain(s: string)
    requires '/' !in s
    ensures Split(s) == [s]
  {
    if s != "" {
      SplitPlain(s[1..]);
      assert [s[0]] + s[1..] == s;
    }
  }

  lemma SafeIsItsOwnName(s: string, unicode: char -> bool)
    requires Safe(s, unicode)
    ensures FileName(s) == Some(s)
  {
    assert '/' !in s by { assert !Allowed('/', unicode); }
    SplitPlain(s);
    assert NonTrivial([]) == [] && [s][1..] == [];
    assert NonTrivial([s]) == [s];
  }

  /** Sanitizing again changes nothing. */
  lemma SanitizedTwice(filename: string, unicode: char -> bool)
    ensures Sanitized(Sanitized(filename, unicode), unicode) == Sanitized(filename, unicode)
  {
    var s := Sanitized(filename, unicode);
    SanitizedIsSafe(filename, unicode);
    SafeIsItsOwnName(s, unicode);
    MaskedAllowed(s, unicode);
    CollapseFixed(s);
  }

  // --- What the result is, in terms of the name ------------------------------------------------

  /** Letters, digits and `-_.` stay, and whatever else the system counts as a letter or digit; everything else becomes
      an underscore. */
  lemma {:induction false} MaskedAt(s: string, unicode: char -> bool, i: nat)
    requires i < |s|
    ensures Masked(s, unicode)[i] ==
      if || 'a' <= s[i] <= 'z' || 'A' <= s[i] <= 'Z' || '0' <= s[i] <= '9' || s[i] in "-_."
         || (s[i] >= 128 as char && unicode(s[i]))
      then s[i] else '_'
  {
    var n := |s| - 1;
    if i < n {
      MaskedAt(s[..n], unicode, i);
      assert s[..n][i] == s[i];
    }
  }

  /** How names are put together from their last component: whatever comes before a slash does not count, nor do slashes
      and single dots at the end; after two dots there is no name. */
  lemma {:induction false} SplitLast(dir: string, base: string)
    requires '/' !in base
    ensures |Split(dir + "/" + base)| == |Split(dir)| + 1
    ensures Split(dir + "/" + base) == Split(dir) + [base]
  {
    var s := dir + "/" + base;
    if dir == "" {
      assert s[1..] == base && s[0] == '/';
      SplitPlain(base);
    } else {
      assert s[1..] == dir[1..] + "/" + base && s[0] == dir[0];
      SplitLast(dir[1..], base);
    }
  }

  lemma {:induction false} NonTrivialAppend(a: seq<string>, p: string)
    ensures NonTrivial(a + [p]) == NonTrivial(a) + if p == "" || p == "." then [] else [p]
  {
    if a != [] {
      assert (a + [p])[1..] == a[1..] + [p];
      NonTrivialAppend(a[1..], p);
    }
  }

  lemma FileNameOfPath(dir: string, base: string)
    requires '/' !in base
    ensures FileName(dir + "/" + base)
         == if base == "" || base == "." then FileName(dir) else if base == ".." then None else Some(base)
  {
    SplitLast(dir, base);
    NonTrivialAppend(Split(dir), base);
  }

  lemma FileNameAlone(base: string)
    requires '/' !in base
    ensures FileName(base) == if base == "" || base == "." || base == ".." then None else Some(base)
  {
    SplitPlain(base);
    assert [] + [base] == [base];
    NonTrivialAppend([], base);
  }

  /** A name is its last component, masked, with runs of dots collapsed, and marked if it would begin with a dot; where
      there is no last component the whole path is taken for the name, and an empty one gets a name of its own. */
  lemma SanitizedFrom(filename: string, unicode: char -> bool)
    ensures
      var base := if FileName(filename).Some? then FileName(filename).value else filename;
      var c := Collapse(Masked(base, unicode));
      Sanitized(filename, unicode) == if base == "" then "unnamed_file" else if base[0] == '.' then "safe_" + c else c
  {
    var base := if FileName(filename).Some? then FileName(filename).value else filename;
    CollapseStart(Masked(base, unicode));
    if base != "" { MaskedAt(base, unicode, 0); }
  }
}
