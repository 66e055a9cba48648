/** The file backend's names: which keys share a file. */
module FileNames {
  import opened Prelude

  /** `replace("..", "_")` */
  function NoDotPairs(s: string): string {
    if |s| < 2 then s
    else if s[0] == '.' && s[1] == '.' then "_" + NoDotPairs(s[2..])
    else [s[0]] + NoDotPairs(s[1..])
  }

  predicate Separator(c: char) {
    c == '/' || c == '\\' || c == ':'
  }

  /** `replace(['/', '\\', ':'], "_")` */
  function Flat(s: string): (r: string)
    ensures |r| == |s| && forall i :: 0 <= i < |s| ==> r[i] == if Separator(s[i]) then '_' else s[i]
  {
    seq(|s|, i requires 0 <= i < |s| => if Separator(s[i]) then '_' else s[i])
  }

  /** The name of a key's file, without directory and extension. */
  function FileName(key: string): string {
    Flat(NoDotPairs(key))
  }

  predicate HasDotPair(s: string) {
    |s| >= 2 && ((s[0] == '.' && s[1] == '.') || HasDotPair(s[1..]))
  }

  /** Nothing in the name is replaced. */
  predicate Untouched(s: string) {
    !HasDotPair(s) && forall i :: 0 <= i < |s| ==> !Separator(s[i])
  }

  /** Nor could anything have been: no underscore, no separator, no pair of dots. */
  predicate Plain(s: string) {
    Untouched(s) && '_' !in s
  }

  lemma {:induction false} NoDotPairsIdentity(s: string)
    requires !HasDotPair(s)
    ensures NoDotPairs(s) == s
  {
    if |s| >= 2 {
      NoDotPairsIdentity(s[1..]);
    }
  }

  /** No pair of dots is left, and a leading dot was one before. */
  lemma {:induction false} NoDotPairsLeft(s: string)
    ensures !HasDotPair(NoDotPairs(s))
    ensures NoDotPairs(s) != "" && NoDotPairs(s)[0] == '.' ==> s[0] == '.'
    ensures NoDotPairs(s) == "" <==> s == ""
  {
    if |s| >= 2 {
      var head := if s[0] == '.' && s[1] == '.' then '_' else s[0];
      var tail := if s[0] == '.' && s[1] == '.' then s[2..] else s[1..];
      NoDotPairsLeft(tail);
      assert NoDotPairs(s) == [head] + NoDotPairs(tail);
      PairAtFront(head, NoDotPairs(tail));
    }
  }

  lemma PairAtFront(c: char, s: string)
    ensures HasDotPair([c] + s) <==> HasDotPair(s) || (s != "" && c == '.' && s[0] == '.')
  {
    assert ([c] + s)[1..] == s;
  }

  lemma {:induction false} FlatKeepsDots(s: string)
    ensures HasDotPair(Flat(s)) == HasDotPair(s)
  {
    if |s| >= 2 {
      FlatKeepsDots(s[1..]);
      assert Flat(s)[1..] == Flat(s[1..]);
    }
  }

  /** What a file is called is left alone when it is used as a key. */
  lemma NamesAreUntouched(key: string)
    ensures Untouched(FileName(key)) && FileName(FileName(key)) == FileName(key)
    ensures Untouched(key) <==> FileName(key) == key
  {
    NoDotPairsLeft(key);
    FlatKeepsDots(NoDotPairs(key));
    UntouchedStays(FileName(key));
    if Untouched(key) {
      UntouchedStays(key);
    }
  }

  lemma UntouchedStays(key: string)
    requires Untouched(key)
    ensures FileName(key) == key
  {
    NoDotPairsIdentity(key);
  }

  /** Whatever is replaced leaves an underscore. */
  lemma {:induction false} PairLeavesUnderscore(s: string)
    ensures HasDotPair(s) || '_' in s ==> '_' in NoDotPairs(s)
  {
    if |s| >= 2 {
      if s[0] == '.' && s[1] == '.' {
        assert NoDotPairs(s) == "_" + NoDotPairs(s[2..]) && '_' in "_";
      } else {
        PairLeavesUnderscore(s[1..]);
        assert s == [s[0]] + s[1..] && NoDotPairs(s) == [s[0]] + NoDotPairs(s[1..]);
      }
    }
  }

  lemma {:induction false} SeparatorStays(s: string, i: nat)
    requires i < |s| && Separator(s[i])
    ensures exists j :: 0 <= j < |NoDotPairs(s)| && NoDotPairs(s)[j] == s[i]
  {
    if |s| >= 2 {
      var cut := if s[0] == '.' && s[1] == '.' then 2 else 1;
      var head := if cut == 2 then "_" else [s[0]];
      assert NoDotPairs(s) == head + NoDotPairs(s[cut..]);
      if i >= cut {
        SeparatorStays(s[cut..], i - cut);
        var j :| 0 <= j < |NoDotPairs(s[cut..])| && NoDotPairs(s[cut..])[j] == s[cut..][i - cut];
        assert NoDotPairs(s)[j + 1] == s[i];
      } else {
        assert NoDotPairs(s)[0] == s[i];
      }
    } else {
      assert NoDotPairs(s)[i] == s[i];
    }
  }

  lemma NotPlainHasUnderscore(key: string)
    requires !Plain(key)
    ensures '_' in FileName(key)
  {
    var s := NoDotPairs(key);
    PairLeavesUnderscore(key);
    if HasDotPair(key) || '_' in key {
      var j :| 0 <= j < |s| && s[j] == '_';
      assert Flat(s)[j] == '_';
    } else {
      var i :| 0 <= i < |key| && Separator(key[i]);
      SeparatorStays(key, i);
      var j :| 0 <= j < |s| && s[j] == key[i];
      assert Flat(s)[j] == '_';
    }
  }

  /** No other key has the file of this one. */
  ghost predicate OwnFile(file: string -> string, key: string) {
    forall k :: file(k) == file(key) ==> k == key
  }

  /** A key has a file of its own exactly if it is plain. */
  lemma OwnFileIff(key: string)
    ensures OwnFile(FileName, key) <==> Plain(key)
  {
    hide FileName, HasDotPair;
    NamesAreUntouched(key);
    if Plain(key) {
      forall k | FileName(k) == FileName(key) ensures k == key {
        NamesAreUntouched(k);
        if !Plain(k) {
          NotPlainHasUnderscore(k);
        }
      }
    } else if FileName(key) != key {
      assert FileName(FileName(key)) == FileName(key);
    } else {
      var i :| 0 <= i < |key| && key[i] == '_';
      ColonForUnderscore(key, i);
    }
  }

  lemma {:induction false} ColonMakesNoPair(s: string, i: nat)
    requires i < |s| && s[i] == '_' && !HasDotPair(s)
    ensures !HasDotPair(s[i := ':'])
  {
    if |s| >= 2 {
      if i > 0 {
        ColonMakesNoPair(s[1..], i - 1);
        assert s[i := ':'][1..] == s[1..][i - 1 := ':'];
      } else {
        assert s[i := ':'][1..] == s[1..];
      }
    }
  }

  /** A colon in the place of an underscore gives the same file. */
  lemma ColonForUnderscore(key: string, i: nat)
    requires Untouched(key) && i < |key| && key[i] == '_'
    ensures FileName(key[i := ':']) == FileName(key) && key[i := ':'] != key
  {
    hide HasDotPair;
    var k := key[i := ':'];
    assert k[i] == ':';
    ColonMakesNoPair(key, i);
    NoDotPairsIdentity(k);
    UntouchedStays(key);
    assert Flat(k) == key;
  }

  lemma {:induction false} NoDots(s: string)
    requires '.' !in s
    ensures NoDotPairs(s) == s
  {
    if |s| >= 2 {
      NoDots(s[1..]);
    }
  }

  lemma SlashAndUnderscore()
    ensures FileName("docs/a") == FileName("docs_a") == "docs_a"
  {
    hide NoDotPairs;
    NoDots("docs/a");
    NoDots("docs_a");
    assert Flat("docs/a") == "docs_a" == Flat("docs_a");
  }
}
