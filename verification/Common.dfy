/** Small vocabulary shared by the models. */
module Common {

  datatype Option<+T> = None | Some(value: T)

  function Elements<T(==)>(s: seq<T>): set<T> {
    set x | x in s
  }

  predicate NoRepeats<T(==)>(s: seq<T>) {
    forall i, j | 0 <= i < j < |s| :: s[i] != s[j]
  }

  function Min(a: nat, b: nat): nat {
    if a <= b then a else b
  }

  lemma {:induction false} ElementsSize<T>(s: seq<T>)
    requires NoRepeats(s)
    ensures |Elements(s)| == |s|
  {
    if s != [] {
      var init, last := s[..|s| - 1], s[|s| - 1];
      ElementsSize(init);
      assert s == init + [last] && last !in Elements(init);
      assert Elements(s) == Elements(init) + {last};
    }
  }

  lemma {:induction false} NoRepeatsConcat<T>(a: seq<T>, b: seq<T>)
    ensures NoRepeats(a + b) <==> NoRepeats(a) && NoRepeats(b) && forall x | x in a :: x !in b
  {
    var s := a + b;
    if NoRepeats(s) {
      assert forall i, j | 0 <= i < j < |a| :: a[i] == s[i] && a[j] == s[j];
      assert forall i, j | 0 <= i < j < |b| :: b[i] == s[|a| + i] && b[j] == s[|a| + j];
      forall i, j | 0 <= i < |a| && 0 <= j < |b| ensures a[i] != b[j] {
        assert s[i] == a[i] && s[|a| + j] == b[j];
      }
    }
    if NoRepeats(a) && NoRepeats(b) && forall x | x in a :: x !in b {
      forall i, j | 0 <= i < j < |s| ensures s[i] != s[j] {
        if i < |a| <= j {
          assert a[i] in a && b[j - |a|] in b;
        }
      }
    }
  }

  lemma {:induction false} NoRepeatsLast<T>(s: seq<T>)
    requires s != []
    ensures NoRepeats(s) <==> NoRepeats(s[..|s| - 1]) && s[|s| - 1] !in s[..|s| - 1]
  {
    assert s == s[..|s| - 1] + [s[|s| - 1]];
    NoRepeatsConcat(s[..|s| - 1], [s[|s| - 1]]);
  }

  /** Ranging over a map visits each key once, in some order. */
  method KeysOf(keys: set<string>) returns (s: seq<string>)
    ensures Elements(s) == keys && NoRepeats(s) && |s| == |keys|
  {
    s := [];
    var todo := keys;
    while todo != {}
      invariant todo <= keys && Elements(s) == keys - todo && NoRepeats(s) && |s| + |todo| == |keys|
      decreases |todo|
    {
      var c :| c in todo;
      assert c !in Elements(s) && Elements(s + [c]) == Elements(s) + {c};
      s := s + [c];
      todo := todo - {c};
    }
  }
}
