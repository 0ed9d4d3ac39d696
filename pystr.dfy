/**
 * The Python `str` built-ins the script uses, restricted to single-character
 * separators and to ASCII letters: `split`, `join`, `replace`, `title` and
 * `format` with automatically numbered `{}` fields.
 */
module PyStr {

  /** Number of occurrences of `c` in `s` (Python `s.count(c)`). */
  function Count(s: string, c: char): (n: nat)
    ensures n == 0 <==> c !in s
  {
    if s == [] then 0 else (if s[0] == c then 1 else 0) + Count(s[1..], c)
  }

  /** Python `s.split(sep)` for a one-character separator. */
  function Split(s: string, sep: char): (parts: seq<string>)
    ensures |parts| == Count(s, sep) + 1
    ensures forall i :: 0 <= i < |parts| ==> sep !in parts[i]
  {
    if s == [] then [""]
    else
      var rest := Split(s[1..], sep);
      if s[0] == sep then [""] + rest
      else [[s[0]] + rest[0]] + rest[1..]
  }

  /** Python `sep.join(parts)`. */
  function Join(parts: seq<string>, sep: char): string
  {
    if parts == [] then ""
    else if |parts| == 1 then parts[0]
    else parts[0] + [sep] + Join(parts[1..], sep)
  }

  /** Joining the pieces of a split gives back the string. */
  lemma {:induction false} JoinSplit(s: string, sep: char)
    ensures Join(Split(s, sep), sep) == s
  {
    if s != [] {
      JoinSplit(s[1..], sep);
      var rest := Split(s[1..], sep);
      if s[0] == sep {
        assert [""] + rest == [""] + rest[..];
      } else {
        var parts := Split(s, sep);
        assert parts[0] == [s[0]] + rest[0];
        if |rest| == 1 {
          assert parts == [[s[0]] + rest[0]];
        } else {
          assert parts[1..] == rest[1..];
        }
      }
    }
  }

  /** A string without the separator splits into itself alone. */
  lemma {:induction false} SplitWithout(a: string, sep: char)
    requires sep !in a
    ensures Split(a, sep) == [a]
  {
    if a != [] {
      SplitWithout(a[1..], sep);
      assert [a[0]] + a[1..] == a;
    }
  }

  /** The first occurrence of the separator ends the first piece. */
  lemma {:induction false} SplitAt(a: string, sep: char, b: string)
    requires sep !in a
    ensures Split(a + [sep] + b, sep) == [a] + Split(b, sep)
  {
    if a == [] {
      assert a + [sep] + b == [sep] + b;
      assert ([sep] + b)[1..] == b;
    } else {
      var s := a + [sep] + b;
      assert s[0] == a[0] != sep;
      assert s[1..] == a[1..] + [sep] + b;
      SplitAt(a[1..], sep, b);
      var rest := Split(s[1..], sep);
      assert rest[0] == a[1..] && rest[1..] == Split(b, sep);
      assert [a[0]] + a[1..] == a;
    }
  }

  /** Splitting a join of separator-free pieces gives back the pieces. */
  lemma {:induction false} SplitJoin(parts: seq<string>, sep: char)
    requires |parts| >= 1
    requires forall i :: 0 <= i < |parts| ==> sep !in parts[i]
    ensures Split(Join(parts, sep), sep) == parts
  {
    if |parts| == 1 {
      SplitWithout(parts[0], sep);
    } else {
      SplitJoin(parts[1..], sep);
      SplitAt(parts[0], sep, Join(parts[1..], sep));
      assert [parts[0]] + parts[1..] == parts;
    }
  }

  /** A string with exactly one separator splits into the two sides. */
  lemma SplitTwo(a: string, sep: char, b: string)
    requires sep !in a && sep !in b
    ensures Split(a + [sep] + b, sep) == [a, b]
  {
    SplitAt(a, sep, b);
    SplitWithout(b, sep);
  }

  /** The first piece ends where the first separator begins. */
  lemma SplitHead(a: string, sep: char, rest: string)
    requires sep !in a
    requires rest == [] || rest[0] == sep
    ensures Split(a + rest, sep)[0] == a
  {
    if rest == [] {
      assert a + rest == a;
      SplitWithout(a, sep);
    } else {
      assert a + rest == a + [sep] + rest[1..];
      SplitAt(a, sep, rest[1..]);
    }
  }

  /** Every character of a piece occurs in the string that was split. */
  lemma {:induction false} SplitPieceChar(s: string, sep: char, i: nat, c: char)
    requires i < |Split(s, sep)|
    requires c in Split(s, sep)[i]
    ensures c in s
  {
    if s != [] {
      var rest := Split(s[1..], sep);
      if s[0] == sep {
        if i > 0 {
          SplitPieceChar(s[1..], sep, i - 1, c);
        }
      } else if i == 0 {
        if c != s[0] {
          assert c in rest[0];
          SplitPieceChar(s[1..], sep, 0, c);
        }
      } else {
        SplitPieceChar(s[1..], sep, i, c);
      }
    }
  }

  /** Python `s.replace(a, b)` for one-character strings `a` and `b`. */
  function Replace(s: string, a: char, b: char): (r: string)
    ensures |r| == |s|
    ensures forall i :: 0 <= i < |s| ==> r[i] == if s[i] == a then b else s[i]
  {
    if s == [] then [] else [if s[0] == a then b else s[0]] + Replace(s[1..], a, b)
  }

  /** After the replacement `a` is gone (unless `b` is `a`), and only `b` is new. */
  lemma ReplaceChars(s: string, a: char, b: char, c: char)
    ensures a != b ==> a !in Replace(s, a, b)
    ensures c in Replace(s, a, b) ==> c in s || c == b
  {
    var r := Replace(s, a, b);
    if c in r {
      var i :| 0 <= i < |r| && r[i] == c;
      assert s[i] == c || c == b;
    }
  }

  predicate IsUpper(c: char) { 'A' <= c <= 'Z' }

  predicate IsLower(c: char) { 'a' <= c <= 'z' }

  /** An ASCII letter: the only cased characters of this model. */
  predicate IsLetter(c: char) { IsUpper(c) || IsLower(c) }

  function ToUpper(c: char): (u: char)
    ensures IsLetter(u) == IsLetter(c) && !IsLower(u)
    ensures !IsLower(c) ==> u == c
  {
    if IsLower(c) then (c as int - 32) as char else c
  }

  function ToLower(c: char): (l: char)
    ensures IsLetter(l) == IsLetter(c) && !IsUpper(l)
    ensures !IsUpper(c) ==> l == c
  {
    if IsUpper(c) then (c as int + 32) as char else c
  }

  /**
   * Python `str.title()` on the rest of a string whose previous character was
   * (`prevCased`) or was not a letter.
   */
  function TitleFrom(s: string, prevCased: bool): string
  {
    if s == [] then []
    else [if prevCased then ToLower(s[0]) else ToUpper(s[0])] + TitleFrom(s[1..], IsLetter(s[0]))
  }

  /** Python `str.title()`. */
  function Title(s: string): string
  {
    TitleFrom(s, false)
  }

  /** Character-wise reading of `TitleFrom`. */
  lemma {:induction false} TitleFromAt(s: string, prevCased: bool)
    ensures |TitleFrom(s, prevCased)| == |s|
    ensures forall i :: 0 <= i < |s| ==>
      TitleFrom(s, prevCased)[i] ==
        if (if i == 0 then prevCased else IsLetter(s[i - 1])) then ToLower(s[i]) else ToUpper(s[i])
  {
    if s != [] {
      TitleFromAt(s[1..], IsLetter(s[0]));
      var t := TitleFrom(s, prevCased);
      forall i | 1 <= i < |s|
        ensures t[i] == if IsLetter(s[i - 1]) then ToLower(s[i]) else ToUpper(s[i])
      {
        assert t[i] == TitleFrom(s[1..], IsLetter(s[0]))[i - 1];
        assert s[1..][i - 1] == s[i];
        assert i - 1 == 0 ==> s[i - 1] == s[0];
        assert i - 1 > 0 ==> s[1..][i - 2] == s[i - 1];
      }
    }
  }

  /**
   * What `str.title()` promises: a letter is upper case when it starts the
   * string or follows a non-letter, lower case when it follows a letter;
   * anything else is kept.
   */
  lemma TitleAt(s: string)
    ensures |Title(s)| == |s|
    ensures forall i :: 0 <= i < |s| ==>
      Title(s)[i] == if i > 0 && IsLetter(s[i - 1]) then ToLower(s[i]) else ToUpper(s[i])
  {
    TitleFromAt(s, false);
  }

  /** Every letter of `s` already has the case `str.title()` would give it. */
  predicate TitleCasedFrom(s: string, prevCased: bool)
  {
    s == [] || ((if prevCased then !IsUpper(s[0]) else !IsLower(s[0])) && TitleCasedFrom(s[1..], IsLetter(s[0])))
  }

  /** Lower-case letters after a letter keep their case. */
  lemma {:induction false} LowerTitleCased(s: string)
    requires forall i :: 0 <= i < |s| ==> IsLower(s[i])
    ensures TitleCasedFrom(s, true)
  {
    if s != [] {
      LowerTitleCased(s[1..]);
    }
  }

  /** A capital followed by lower-case letters is a title-cased word. */
  lemma CapitalizedTitleCased(c: char, s: string)
    requires IsUpper(c) && forall i :: 0 <= i < |s| ==> IsLower(s[i])
    ensures TitleCasedFrom([c] + s, false)
  {
    LowerTitleCased(s);
    assert ([c] + s)[1..] == s;
  }

  /** A string whose letters already have their title case is its own title case. */
  lemma {:induction false} TitleFixed(s: string, prevCased: bool)
    requires TitleCasedFrom(s, prevCased)
    ensures TitleFrom(s, prevCased) == s
  {
    if s != [] {
      TitleFixed(s[1..], IsLetter(s[0]));
      assert [s[0]] + s[1..] == s;
    }
  }

  lemma {:induction false} TitleFromIdempotent(s: string, prevCased: bool)
    ensures TitleFrom(TitleFrom(s, prevCased), prevCased) == TitleFrom(s, prevCased)
  {
    if s != [] {
      TitleFromIdempotent(s[1..], IsLetter(s[0]));
      var t := TitleFrom(s, prevCased);
      assert t[1..] == TitleFrom(s[1..], IsLetter(s[0]));
      assert IsLetter(t[0]) == IsLetter(s[0]);
    }
  }

  /** Title-casing a title-cased string changes nothing. */
  lemma TitleIdempotent(s: string)
    ensures Title(Title(s)) == Title(s)
  {
    TitleFromIdempotent(s, false);
  }

  /** Title-casing keeps every non-letter exactly where it was. */
  lemma TitleKeepsNonLetter(s: string, c: char)
    requires !IsLetter(c)
    ensures c in Title(s) <==> c in s
  {
    TitleAt(s);
    var t := Title(s);
    if c in t {
      var i :| 0 <= i < |t| && t[i] == c;
      assert t[i] == if i > 0 && IsLetter(s[i - 1]) then ToLower(s[i]) else ToUpper(s[i]);
    }
    if c in s {
      var i :| 0 <= i < |s| && s[i] == c;
      assert t[i] == if i > 0 && IsLetter(s[i - 1]) then ToLower(s[i]) else ToUpper(s[i]);
    }
  }

  /** The template starts with a `{}` field. */
  predicate FieldAt(template: string)
  {
    |template| >= 2 && template[0] == '{' && template[1] == '}'
  }

  /** Number of automatically numbered `{}` fields in a format template. */
  function FieldCount(template: string): nat
  {
    if template == [] then 0
    else (if FieldAt(template) then 1 else 0) + FieldCount(template[if FieldAt(template) then 2 else 1..])
  }

  /**
   * Python `template.format(*args)` for a template whose only braces are `{}`
   * fields: each field is replaced by the next argument; extra arguments are
   * ignored.
   */
  function Format(template: string, args: seq<string>): string
    requires FieldCount(template) <= |args|
  {
    if template == [] then ""
    else
      var field := FieldAt(template);
      (if field then args[0] else [template[0]])
        + Format(template[if field then 2 else 1..], if field then args[1..] else args)
  }

  /** The template made of the literal runs `lits` with one `{}` field between each two. */
  function Render(lits: seq<string>): string
    requires |lits| >= 1
  {
    if |lits| == 1 then lits[0] else lits[0] + ("{}" + Render(lits[1..]))
  }

  /** A template of runs is its first run, a field, and the template of the other runs. */
  lemma RenderStep(lit: string, rest: seq<string>)
    requires |rest| >= 1
    ensures Render([lit] + rest) == lit + ("{}" + Render(rest))
  {
    assert ([lit] + rest)[1..] == rest;
  }

  /** The literal runs `lits` with the arguments put between them. */
  function Interleave(lits: seq<string>, args: seq<string>): string
    requires |lits| == |args| + 1
  {
    if args == [] then lits[0] else lits[0] + (args[0] + Interleave(lits[1..], args[1..]))
  }

  lemma {:induction false} FormatLiteral(lit: string, rest: string, args: seq<string>)
    requires '{' !in lit
    ensures FieldCount(lit + rest) == FieldCount(rest)
    ensures FieldCount(rest) <= |args| ==> Format(lit + rest, args) == lit + Format(rest, args)
  {
    if lit == [] {
      assert lit + rest == rest;
    } else {
      var s := lit + rest;
      assert s[0] == lit[0] != '{';
      assert !FieldAt(s);
      assert s[1..] == lit[1..] + rest;
      FormatLiteral(lit[1..], rest, args);
      assert FieldCount(s) == FieldCount(s[1..]);
      if FieldCount(rest) <= |args| {
        var f := Format(rest, args);
        assert Format(s, args) == [lit[0]] + (lit[1..] + f);
        assert [lit[0]] + lit[1..] == lit;
        Assoc([lit[0]], lit[1..], f);
      }
    }
  }

  lemma FormatField(rest: string, args: seq<string>)
    ensures FieldCount("{}" + rest) == 1 + FieldCount(rest)
    ensures 1 + FieldCount(rest) <= |args| ==> Format("{}" + rest, args) == args[0] + Format(rest, args[1..])
  {
    assert ("{}" + rest)[2..] == rest;
  }

  /**
   * What `format` does with a template of `{}` fields between brace-free
   * literal runs: it has one field per argument, and each field is filled, in
   * order, by the next argument.
   */
  lemma {:induction false} FormatRender(lits: seq<string>, args: seq<string>)
    requires |lits| == |args| + 1
    requires forall i :: 0 <= i < |lits| ==> '{' !in lits[i] && '}' !in lits[i]
    ensures FieldCount(Render(lits)) == |args|
    ensures Format(Render(lits), args) == Interleave(lits, args)
  {
    if args == [] {
      FormatLiteral(lits[0], "", args);
      assert lits[0] + "" == lits[0];
    } else {
      var rest := Render(lits[1..]);
      FormatRender(lits[1..], args[1..]);
      FormatField(rest, args);
      FormatLiteral(lits[0], "{}" + rest, args);
    }
  }

  lemma Assoc(x: string, y: string, z: string)
    ensures x + (y + z) == x + y + z
  {
  }
}
