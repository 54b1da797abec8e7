/** The table-name convention of the persistence engine (collection/db.py, `_table_name`):
    the runs of one upper-case letter followed by lower-case letters (`[A-Z][a-z]+`) are
    taken from the type name left to right, lower-cased and joined by underscores. */
module Naming {

  predicate IsUpper(c: char) { 'A' <= c <= 'Z' }
  predicate IsLower(c: char) { 'a' <= c <= 'z' }

  /** One match of the pattern `[A-Z][a-z]+`. */
  predicate IsCapWord(w: string)
  {
    |w| >= 2 && IsUpper(w[0]) && forall i :: 1 <= i < |w| ==> IsLower(w[i])
  }

  /** Length of the longest prefix of `s` made of lower-case letters. */
  function LowerRun(s: string): (n: nat)
    ensures n <= |s|
    ensures forall i :: 0 <= i < n ==> IsLower(s[i])
    ensures n < |s| ==> !IsLower(s[n])
  {
    if s == [] || !IsLower(s[0]) then 0 else 1 + LowerRun(s[1..])
  }

  /** `re.findall('[A-Z][a-z]+', s)`: scanning resumes after each match and
      skips one character wherever no match starts. */
  function Words(s: string): (ws: seq<string>)
    ensures forall i :: 0 <= i < |ws| ==> IsCapWord(ws[i])
    decreases |s|
  {
    if |s| < 2 then []
    else if IsUpper(s[0]) && IsLower(s[1]) then
      var n := 1 + LowerRun(s[1..]);
      [s[..n]] + Words(s[n..])
    else Words(s[1..])
  }

  /** `str.lower` on ASCII letters. */
  function ToLower(c: char): char
  {
    if IsUpper(c) then (c as int + 32) as char else c
  }

  function LowerWord(w: string): (r: string)
    ensures |r| == |w|
    ensures forall i :: 0 <= i < |r| ==> !IsUpper(r[i])
  {
    seq(|w|, i requires 0 <= i < |w| => ToLower(w[i]))
  }

  function LowerAll(ws: seq<string>): (rs: seq<string>)
    ensures |rs| == |ws|
  {
    seq(|ws|, i requires 0 <= i < |ws| => LowerWord(ws[i]))
  }

  /** `sep.join(ws)`. */
  function JoinWith(sep: string, ws: seq<string>): string
  {
    if ws == [] then ""
    else if |ws| == 1 then ws[0]
    else ws[0] + sep + JoinWith(sep, ws[1..])
  }

  /** The concatenation of a sequence of strings. */
  function Concat(ws: seq<string>): string
  {
    if ws == [] then "" else ws[0] + Concat(ws[1..])
  }

  /** `_table_name`: the lower-cased `[A-Z][a-z]+` runs of the type name joined by `_`. */
  function TableName(typeName: string): string
  {
    JoinWith("_", LowerAll(Words(typeName)))
  }

  lemma {:induction false} LowerRunOfLowerPrefix(a: string, b: string)
    requires forall i :: 0 <= i < |a| ==> IsLower(a[i])
    requires b == [] || !IsLower(b[0])
    ensures LowerRun(a + b) == |a|
  {
    if a != [] {
      assert (a + b)[1..] == a[1..] + b;
      LowerRunOfLowerPrefix(a[1..], b);
    } else {
      assert a + b == b;
    }
  }

  lemma {:induction false} ConcatOfCapWords(ws: seq<string>)
    requires forall i :: 0 <= i < |ws| ==> IsCapWord(ws[i])
    ensures Concat(ws) == [] || (|Concat(ws)| >= 2 && IsUpper(Concat(ws)[0]))
  {
  }

  /** The scan recovers the words of a name written as capitalised words run together:
      `Words` is a left inverse of `Concat` on capitalised words. */
  lemma {:induction false} WordsOfCamelCase(ws: seq<string>)
    requires forall i :: 0 <= i < |ws| ==> IsCapWord(ws[i])
    ensures Words(Concat(ws)) == ws
  {
    if ws != [] {
      var w, rest := ws[0], Concat(ws[1..]);
      var s := Concat(ws);
      assert s == w + rest;
      ConcatOfCapWords(ws[1..]);
      assert s[1..] == w[1..] + rest;
      LowerRunOfLowerPrefix(w[1..], rest);
      var n := 1 + LowerRun(s[1..]);
      assert n == |w|;
      assert s[..n] == w;
      assert s[n..] == rest;
      WordsOfCamelCase(ws[1..]);
    }
  }

  /** A type name written as capitalised words gets the table name made of those words,
      lower-cased and joined by `_`. */
  lemma TableNameOfCamelCase(ws: seq<string>)
    requires forall i :: 0 <= i < |ws| ==> IsCapWord(ws[i])
    ensures TableName(Concat(ws)) == JoinWith("_", LowerAll(ws))
  {
    WordsOfCamelCase(ws);
  }

  lemma {:induction false} JoinWithHasNoUpper(sep: string, ws: seq<string>)
    requires forall i :: 0 <= i < |sep| ==> !IsUpper(sep[i])
    requires forall k, i :: 0 <= k < |ws| && 0 <= i < |ws[k]| ==> !IsUpper(ws[k][i])
    ensures forall i :: 0 <= i < |JoinWith(sep, ws)| ==> !IsUpper(JoinWith(sep, ws)[i])
  {
    if |ws| > 1 {
      JoinWithHasNoUpper(sep, ws[1..]);
      var tail := JoinWith(sep, ws[1..]);
      assert JoinWith(sep, ws) == ws[0] + sep + tail;
      forall i | 0 <= i < |JoinWith(sep, ws)|
        ensures !IsUpper(JoinWith(sep, ws)[i])
      {
        if i < |ws[0]| {
        } else if i < |ws[0]| + |sep| {
          assert JoinWith(sep, ws)[i] == sep[i - |ws[0]|];
        } else {
          assert JoinWith(sep, ws)[i] == tail[i - |ws[0]| - |sep|];
        }
      }
    }
  }

  /** A table name never contains an upper-case letter. */
  lemma TableNameIsLowerCase(typeName: string)
    ensures forall i :: 0 <= i < |TableName(typeName)| ==> !IsUpper(TableName(typeName)[i])
  {
    var ws := LowerAll(Words(typeName));
    forall k, i | 0 <= k < |ws| && 0 <= i < |ws[k]|
      ensures !IsUpper(ws[k][i])
    {
      assert ws[k] == LowerWord(Words(typeName)[k]);
    }
    JoinWithHasNoUpper("_", ws);
  }

  /** Lower-casing a capitalised word changes only its first letter. */
  lemma CapWordLower(w: string, l: string)
    requires IsCapWord(w) && l == [ToLower(w[0])] + w[1..]
    ensures LowerWord(w) == l
  {
    forall i | 1 <= i < |w|
      ensures LowerWord(w)[i] == l[i]
    {
      assert IsLower(w[i]);
    }
  }

  /** The table names of type names made of one to four capitalised words, given each
      word's lower-case form. */
  lemma OneWord(a: string, la: string)
    requires IsCapWord(a) && la == [ToLower(a[0])] + a[1..]
    ensures TableName(a) == la
  {
    assert Concat([a]) == a;
    TableNameOfCamelCase([a]);
    CapWordLower(a, la);
  }

  lemma TwoWords(a: string, b: string, la: string, lb: string)
    requires IsCapWord(a) && la == [ToLower(a[0])] + a[1..]
    requires IsCapWord(b) && lb == [ToLower(b[0])] + b[1..]
    ensures TableName(a + b) == la + "_" + lb
  {
    var ws := [a, b];
    assert Concat(ws) == a + b by {
      assert Concat(ws[1..]) == b;
    }
    TableNameOfCamelCase(ws);
    CapWordLower(a, la);
    CapWordLower(b, lb);
  }

  lemma ThreeWords(a: string, b: string, c: string, la: string, lb: string, lc: string)
    requires IsCapWord(a) && la == [ToLower(a[0])] + a[1..]
    requires IsCapWord(b) && lb == [ToLower(b[0])] + b[1..]
    requires IsCapWord(c) && lc == [ToLower(c[0])] + c[1..]
    ensures TableName(a + b + c) == la + "_" + lb + "_" + lc
  {
    var ws := [a, b, c];
    assert Concat(ws) == a + b + c by {
      assert Concat(ws[2..]) == c;
      assert Concat(ws[1..]) == b + c;
    }
    TableNameOfCamelCase(ws);
    CapWordLower(a, la);
    CapWordLower(b, lb);
    CapWordLower(c, lc);
    var ls := LowerAll(ws);
    assert JoinWith("_", ls) == ls[0] + "_" + (ls[1] + "_" + ls[2]) by {
      assert JoinWith("_", ls[1..][1..]) == ls[2];
    }
  }

  lemma FourWords(a: string, b: string, c: string, d: string, la: string, lb: string, lc: string, ld: string)
    requires IsCapWord(a) && la == [ToLower(a[0])] + a[1..]
    requires IsCapWord(b) && lb == [ToLower(b[0])] + b[1..]
    requires IsCapWord(c) && lc == [ToLower(c[0])] + c[1..]
    requires IsCapWord(d) && ld == [ToLower(d[0])] + d[1..]
    ensures TableName(a + b + c + d) == la + "_" + lb + "_" + lc + "_" + ld
  {
    var ws := [a, b, c, d];
    assert Concat(ws) == a + b + c + d by {
      assert Concat(ws[3..]) == d;
      assert Concat(ws[2..]) == c + d;
      assert Concat(ws[1..]) == b + c + d;
    }
    TableNameOfCamelCase(ws);
    CapWordLower(a, la);
    CapWordLower(b, lb);
    CapWordLower(c, lc);
    CapWordLower(d, ld);
    var ls := LowerAll(ws);
    JoinThree(ls[1..]);
  }

  /** `"_".join` of three words. */
  lemma JoinThree(ls: seq<string>)
    requires |ls| == 3
    ensures JoinWith("_", ls) == ls[0] + "_" + ls[1] + "_" + ls[2]
  {
    assert JoinWith("_", ls[1..][1..]) == ls[2];
  }
}
