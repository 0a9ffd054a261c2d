/** Messages between the nodes of a network, and the fan-out of one body to a set of peers. */
module Networks {
  datatype Message<V, B> = Message(src: V, dst: V, body: B)

  /** One message per target, in some order. */
  ghost predicate IsFanOut<V(!new), B(!new)>(out: seq<Message<V, B>>, x: V, targets: set<V>, b: B) {
    && (forall i, j :: 0 <= i < j < |out| ==> out[i].dst != out[j].dst)
    && (forall y :: y in targets ==> Message(x, y, b) in out)
    && (forall m :: m in out ==> m.src == x && m.dst in targets && m.body == b)
  }

  ghost function Without<T>(s: seq<T>, i: nat): seq<T>
    requires i < |s|
  {
    s[..i] + s[i + 1..]
  }

  lemma WithoutKeeps<T>(s: seq<T>, i: nat, k: nat, out: seq<T>)
    requires i < |s| && k < |s| && k != i
    ensures var j := if k < i then k else k - 1; j < |Without(s, i) + out| && (Without(s, i) + out)[j] == s[k]
  { }

  lemma {:induction false} FanOutSize<V(!new), B(!new)>(out: seq<Message<V, B>>, x: V, targets: set<V>, b: B)
    requires IsFanOut(out, x, targets, b)
    ensures |out| == |targets|
    decreases |out|
  {
    if out == [] {
      assert forall y :: y in targets ==> Message(x, y, b) in out;
    } else {
      var n := |out| - 1;
      var init, last := out[..n], out[n];
      assert out == init + [last] && last in out;
      forall y | y in targets - {last.dst} ensures Message(x, y, b) in init {
        assert Message(x, y, b) in out;
      }
      FanOutSize(init, x, targets - {last.dst}, b);
    }
  }

  /** Every finite set of targets can be served. */
  lemma {:induction false} FanOut<V(!new), B(!new)>(x: V, targets: set<V>, b: B) returns (out: seq<Message<V, B>>)
    ensures IsFanOut(out, x, targets, b)
    decreases |targets|
  {
    if targets == {} {
      out := [];
    } else {
      var y :| y in targets;
      var rest := FanOut(x, targets - {y}, b);
      out := rest + [Message(x, y, b)];
      forall z | z in targets ensures Message(x, z, b) in out {
        if z != y { assert Message(x, z, b) in rest; }
      }
      forall i | 0 <= i < |rest| ensures rest[i].dst != y { assert rest[i] in rest; }
    }
  }
}
