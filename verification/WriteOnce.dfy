/** The write-once attribute store behind ports and signals. */
module WriteOnce {

  /** Attribute values; None is Nil, and booleans are the numbers 0 and 1. */
  datatype Value = Nil | Num(n: int) | Text(s: string)

  type Attrs = map<string, Value>

  datatype Write = Write(attr: string, value: Value)

  /** The attributes after some writes, and whether all of them went through. */
  datatype Outcome = Outcome(attrs: Attrs, ok: bool)

  function Get(a: Attrs, x: string): Value {
    if x in a then a[x] else Nil
  }

  /** __setattr__: a missing or None attribute is set, an equal one is left, anything else raises. Setting a comment a
      second time always raises. */
  function Set(a: Attrs, x: string, y: Value): Outcome {
    if x !in a || a[x] == Nil then Outcome(a[x := y], true)
    else if x == "comment" then Outcome(a, false)
    else Outcome(a, a[x] == y)
  }

  /** The first n writes in order, stopping at the first that raises. */
  function After(a: Attrs, ws: seq<Write>, n: nat): Outcome
    requires n <= |ws|
  {
    if n == 0 then Outcome(a, true)
    else
      var p := After(a, ws, n - 1);
      if p.ok then Set(p.attrs, ws[n - 1].attr, ws[n - 1].value) else p
  }

  function SetAll(a: Attrs, ws: seq<Write>): Outcome {
    After(a, ws, |ws|)
  }

  /** update_attrs: one assignment after the other; an exception keeps what was assigned before it. */
  method UpdateAttrs(a: Attrs, ws: seq<Write>) returns (r: Outcome)
    ensures r == SetAll(a, ws)
  {
    r := Outcome(a, true);
    var i := 0;
    while i < |ws|
      invariant 0 <= i <= |ws| && r.ok
      invariant r == After(a, ws, i)
    {
      r := Set(r.attrs, ws[i].attr, ws[i].value);
      if !r.ok {
        AfterStopped(a, ws, i + 1, |ws|);
        return;
      }
      i := i + 1;
    }
  }

  lemma {:induction false} AfterStopped(a: Attrs, ws: seq<Write>, m: nat, n: nat)
    requires m <= n <= |ws| && !After(a, ws, m).ok
    ensures After(a, ws, n) == After(a, ws, m)
  {
    if m < n {
      AfterStopped(a, ws, m, n - 1);
    }
  }

  // ---------------------------------------------------------------------------------------------------------
  // What never changes
  // ---------------------------------------------------------------------------------------------------------

  /** b keeps every attribute of a and every value a has settled on. */
  ghost predicate Extends(a: Attrs, b: Attrs) {
    && a.Keys <= b.Keys
    && forall x {:trigger Get(a, x)} {:trigger Get(b, x)} :: Get(a, x) != Nil ==> Get(b, x) == Get(a, x)
  }

  lemma {:induction false} AfterExtends(a: Attrs, ws: seq<Write>, n: nat)
    requires n <= |ws|
    ensures Extends(a, After(a, ws, n).attrs)
  {
    if n > 0 {
      AfterExtends(a, ws, n - 1);
    }
  }

  /** None up to k, and c from there on. */
  ghost predicate SettlesAt(h: seq<Value>, k: nat, c: Value) {
    k <= |h| && (forall i :: 0 <= i < k ==> h[i] == Nil) && (forall i :: k <= i < |h| ==> h[i] == c)
  }

  /** A history of None values followed by one constant. */
  ghost predicate NilsThenConstant(h: seq<Value>) {
    exists k, c :: SettlesAt(h, k, c)
  }

  /** Steps that keep settled values make such a history. */
  lemma {:induction false} SettlingHistory(h: seq<Value>)
    requires forall i :: 0 <= i < |h| - 1 && h[i] != Nil ==> h[i + 1] == h[i]
    ensures NilsThenConstant(h)
  {
    if h == [] {
      assert SettlesAt(h, 0, Nil);
    } else {
      var last := |h| - 1;
      var g := h[..last];
      SettlingHistory(g);
      var k, c :| SettlesAt(g, k, c);
      assert forall i :: 0 <= i < last ==> h[i] == g[i];
      if k == |g| || c == Nil {
        assert SettlesAt(h, last, h[last]);
      } else {
        assert h[last - 1] == c;
        assert SettlesAt(h, k, c);
      }
    }
  }

  // ---------------------------------------------------------------------------------------------------------
  // When writes go through
  // ---------------------------------------------------------------------------------------------------------

  /** A stored value u lets v be written. */
  predicate Allows(x: string, u: Value, v: Value) {
    u == Nil || (x != "comment" && u == v)
  }

  ghost predicate Compatible(a: Attrs, ws: seq<Write>, n: nat)
    requires n <= |ws|
  {
    && (forall j :: 0 <= j < n ==> Allows(ws[j].attr, Get(a, ws[j].attr), ws[j].value))
    && (forall i, j :: 0 <= i < j < n && ws[i].attr == ws[j].attr ==> Allows(ws[j].attr, ws[i].value, ws[j].value))
  }

  /** b holds exactly what a and the first n writes put there. */
  ghost predicate Merged(a: Attrs, ws: seq<Write>, n: nat, b: Attrs)
    requires n <= |ws|
  {
    && Extends(a, b)
    && (forall j :: 0 <= j < n && ws[j].value != Nil ==> Get(b, ws[j].attr) == ws[j].value)
    && (forall x {:trigger Get(b, x)} :: Get(b, x) != Nil && Get(a, x) == Nil ==>
          exists j :: 0 <= j < n && ws[j] == Write(x, Get(b, x)))
  }

  lemma {:induction false} AfterMerges(a: Attrs, ws: seq<Write>, n: nat)
    requires n <= |ws| && After(a, ws, n).ok
    ensures Merged(a, ws, n, After(a, ws, n).attrs)
  {
    if n > 0 {
      AfterMerges(a, ws, n - 1);
      var p, b, w := After(a, ws, n - 1).attrs, After(a, ws, n).attrs, ws[n - 1];
      forall x | Get(b, x) != Nil && Get(a, x) == Nil
        ensures exists j :: 0 <= j < n && ws[j] == Write(x, Get(b, x))
      {
        if Get(p, x) != Nil {
          var j :| 0 <= j < n - 1 && ws[j] == Write(x, Get(p, x));
        } else {
          assert ws[n - 1] == Write(x, Get(b, x));
        }
      }
    }
  }

  /** A sequence of writes goes through exactly when each agrees with the stored value and with every earlier write to
      the same attribute: None may be overwritten, but a value may not be set back to None. */
  lemma {:induction false} WritesSucceedIff(a: Attrs, ws: seq<Write>, n: nat)
    requires n <= |ws|
    ensures After(a, ws, n).ok <==> Compatible(a, ws, n)
  {
    if n > 0 {
      WritesSucceedIff(a, ws, n - 1);
      if After(a, ws, n - 1).ok {
        AfterMerges(a, ws, n - 1);
        LastWriteIff(a, ws, n, After(a, ws, n - 1).attrs);
      }
    }
  }

  lemma {:induction false} LastWriteIff(a: Attrs, ws: seq<Write>, n: nat, p: Attrs)
    requires 0 < n <= |ws| && Merged(a, ws, n - 1, p) && Compatible(a, ws, n - 1)
    ensures Allows(ws[n - 1].attr, Get(p, ws[n - 1].attr), ws[n - 1].value) <==> Compatible(a, ws, n)
  {
    var w := ws[n - 1];
    if Allows(w.attr, Get(p, w.attr), w.value) {
      forall i | 0 <= i < n - 1 && ws[i].attr == w.attr ensures Allows(w.attr, ws[i].value, w.value) {
        assert ws[i].value != Nil ==> Get(p, w.attr) == ws[i].value;
      }
      assert Get(a, w.attr) != Nil ==> Get(p, w.attr) == Get(a, w.attr);
    } else if Get(a, w.attr) == Nil {
      var j :| 0 <= j < n - 1 && ws[j] == Write(w.attr, Get(p, w.attr));
      assert !Allows(w.attr, ws[j].value, w.value);
    }
  }

  // ---------------------------------------------------------------------------------------------------------
  // Repeating writes
  // ---------------------------------------------------------------------------------------------------------

  /** No attribute twice. */
  ghost predicate DistinctAttrs(ws: seq<Write>) {
    forall i, j :: 0 <= i < j < |ws| ==> ws[i].attr != ws[j].attr
  }

  /** No attribute twice and no comment. */
  ghost predicate Plain(ws: seq<Write>) {
    DistinctAttrs(ws) && forall i :: 0 <= i < |ws| ==> ws[i].attr != "comment"
  }

  /** Every write finds its own value in place. */
  ghost predicate Settled(a: Attrs, ws: seq<Write>) {
    forall i :: 0 <= i < |ws| ==> Get(a, ws[i].attr) == ws[i].value
  }

  /** The attributes a write can meet are all present. */
  ghost predicate Present(a: Attrs, ws: seq<Write>) {
    forall i :: 0 <= i < |ws| ==> ws[i].attr in a
  }

  /** Writes that went through are in place right after. */
  lemma {:induction false} SettledAfter(a: Attrs, ws: seq<Write>, n: nat)
    requires n <= |ws| && DistinctAttrs(ws) && After(a, ws, n).ok
    ensures forall i :: 0 <= i < n ==> ws[i].attr in After(a, ws, n).attrs
    ensures forall i :: 0 <= i < n ==> Get(After(a, ws, n).attrs, ws[i].attr) == ws[i].value
  {
    if n > 0 {
      SettledAfter(a, ws, n - 1);
    }
  }
}
