/** The part of a download's file name taken from free text
    (getSafeFileNamePart): the text trimmed, every run of whitespace made
    one `_`, and the characters Windows refuses in file names removed. */
module FileNames {
  import opened Text
  import Seqs

  /** The characters of the class `[\\/:"*?<>|]`. */
  predicate Unsafe(c: char)
  {
    c == '\\' || c == '/' || c == ':' || c == '"' || c == '*' || c == '?' || c == '<' || c == '>' || c == '|'
  }

  predicate Safe(c: char)
  {
    !Unsafe(c)
  }

  predicate AllSafe(s: string)
  {
    forall k :: 0 <= k < |s| ==> !Unsafe(s[k])
  }

  /** `.replace(/\s+/g, '_')`: each maximal run of whitespace becomes a
      single `_`. */
  function Underscored(s: string): (r: string)
    ensures NoSpace(r)
    ensures AllSafe(s) ==> AllSafe(r)
    decreases |s|
  {
    if s == [] then []
    else if IsSpace(s[0]) then
      var i := LeadingSpaces(s);
      assert AllSafe(s) ==> AllSafe(s[i..]) by {
        if AllSafe(s) {
          forall k | 0 <= k < |s[i..]| ensures !Unsafe(s[i..][k]) { assert s[i..][k] == s[i + k]; }
        }
      }
      "_" + Underscored(s[i..])
    else
      assert AllSafe(s) ==> AllSafe(s[1..]) by {
        if AllSafe(s) {
          forall k | 0 <= k < |s[1..]| ensures !Unsafe(s[1..][k]) { assert s[1..][k] == s[k + 1]; }
        }
      }
      [s[0]] + Underscored(s[1..])
  }

  /** `.replace(/[\\/:"*?<>|]/g, '')`: the safe characters, in order. */
  function RemoveUnsafe(s: string): (r: string)
    ensures AllSafe(r)
    ensures NoSpace(s) ==> NoSpace(r)
  {
    if s == [] then []
    else
      var prefix := s[..|s| - 1];
      assert NoSpace(s) ==> NoSpace(prefix) by {
        if NoSpace(s) {
          forall k | 0 <= k < |prefix| ensures !IsSpace(prefix[k]) { assert prefix[k] == s[k]; }
        }
      }
      var init := RemoveUnsafe(prefix);
      if Unsafe(s[|s| - 1]) then init else init + [s[|s| - 1]]
  }

  /** getSafeFileNamePart. */
  function SafeFileNamePart(text: string): (r: string)
    ensures NoSpace(r) && AllSafe(r)
  {
    RemoveUnsafe(Underscored(Trim(text)))
  }

  /** Text without whitespace is left alone by the underscoring. */
  lemma {:induction false} UnderscoredFixed(s: string)
    requires NoSpace(s)
    ensures Underscored(s) == s
  {
    if s != [] {
      assert NoSpace(s[1..]) by {
        forall k | 0 <= k < |s[1..]| ensures !IsSpace(s[1..][k]) { assert s[1..][k] == s[k + 1]; }
      }
      UnderscoredFixed(s[1..]);
    }
  }

  /** The removal keeps exactly the safe characters, in their order. */
  lemma {:induction false} RemoveUnsafeKeepsSafe(s: string)
    ensures RemoveUnsafe(s) == Seqs.Filter(s, Safe)
  {
    if s != [] {
      var init, last := s[..|s| - 1], s[|s| - 1];
      RemoveUnsafeKeepsSafe(init);
      assert s == init + [last];
      Seqs.FilterAppend(init, [last], Safe);
      assert Seqs.Filter([last], Safe) == if Safe(last) then [last] else [];
    }
  }

  /** Text of safe characters is left alone by the removal. */
  lemma {:induction false} RemoveUnsafeFixed(s: string)
    requires AllSafe(s)
    ensures RemoveUnsafe(s) == s
  {
    if s != [] {
      var init := s[..|s| - 1];
      assert AllSafe(init) by {
        forall k | 0 <= k < |init| ensures !Unsafe(init[k]) { assert init[k] == s[k]; }
      }
      RemoveUnsafeFixed(init);
      assert s == init + [s[|s| - 1]];
    }
  }

  /** A whitespace run between a word and the rest becomes exactly one
      `_`, however long the run. */
  lemma {:induction false} RunBecomesOneUnderscore(x: string, run: string, y: string)
    requires NoSpace(x)
    requires run != [] && AllSpace(run)
    requires y == [] || !IsSpace(y[0])
    ensures Underscored(x + run + y) == x + "_" + Underscored(y)
  {
    if x == [] {
      assert x + run + y == run + y;
      LeadingRun(run, y);
    } else {
      assert NoSpace(x[1..]) by {
        forall k | 0 <= k < |x[1..]| ensures !IsSpace(x[1..][k]) { assert x[1..][k] == x[k + 1]; }
      }
      RunBecomesOneUnderscore(x[1..], run, y);
      assert x + run + y == [x[0]] + (x[1..] + run + y);
      UnderscoredWord(x[0], x[1..] + run + y);
    }
  }

  /** A leading non-space character is kept as it is. */
  lemma UnderscoredWord(c: char, t: string)
    requires !IsSpace(c)
    ensures Underscored([c] + t) == [c] + Underscored(t)
  {
    assert ([c] + t)[1..] == t;
  }

  /** A leading whitespace run becomes one `_`. */
  lemma LeadingRun(run: string, y: string)
    requires run != [] && AllSpace(run)
    requires y == [] || !IsSpace(y[0])
    ensures Underscored(run + y) == "_" + Underscored(y)
  {
    var s := run + y;
    assert s[..|run|] == run;
    assert LeadingSpaces(s) == |run|;
    assert s[|run|..] == y;
  }

  /** Cleaning a cleaned name changes nothing. */
  lemma SafeFileNamePartIdempotent(text: string)
    ensures SafeFileNamePart(SafeFileNamePart(text)) == SafeFileNamePart(text)
  {
    var r := SafeFileNamePart(text);
    assert r == [] || (!IsSpace(r[0]) && !IsSpace(r[|r| - 1]));
    TrimFixed(r);
    UnderscoredFixed(r);
    RemoveUnsafeFixed(r);
  }
}
