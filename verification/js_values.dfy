/** The handful of JavaScript value semantics the two components rely on:
    optional props, truthiness of optional strings and booleans, and the
    relational operator `<` applied to record field values.

    Numbers are modelled as mathematical integers and strings as sequences of
    characters compared character by character. */
module JsValues {

  /** An optional prop or state cell: `undefined` (None) or a value. */
  datatype Option<+T> = None | Some(value: T)

  /** A record field as `record[name]` reads it: a number, a string, or
      `undefined` for a field the record does not have. */
  datatype Value = Undefined | Num(n: int) | Str(s: string)

  /** JavaScript truthiness of an optional string: absent and "" are both falsy. */
  predicate Truthy(s: Option<string>) {
    s.Some? && |s.value| > 0
  }

  /** JavaScript truthiness of an optional boolean prop: only `true` is truthy. */
  predicate IsTrue(b: Option<bool>) {
    b == Some(true)
  }

  /** The string comparison `a < b`: lexicographic by character, a proper
      prefix is smaller. */
  predicate StrLess(a: string, b: string)
    decreases |a|
  {
    if |b| == 0 then false
    else if |a| == 0 then true
    else if a[0] != b[0] then a[0] < b[0]
    else StrLess(a[1..], b[1..])
  }

  /** An independent, non-recursive statement of lexicographic order: `a` is a
      proper prefix of `b`, or the two agree up to a first position where
      `a` holds the smaller character. */
  ghost predicate Lexicographic(a: string, b: string) {
    || (|a| < |b| && a == b[..|a|])
    || exists i :: 0 <= i < |a| && i < |b| && a[..i] == b[..i] && a[i] < b[i]
  }

  /** `a < b` on field values. Two numbers compare numerically, two strings
      lexicographically; `undefined` compared with anything, and a number
      compared with a string, is false in both directions. */
  predicate Less(a: Value, b: Value) {
    match a
    case Num(x) => b.Num? && x < b.n
    case Str(x) => b.Str? && StrLess(x, b.s)
    case Undefined => false
  }

  /** Both values are numbers, both strings, or both `undefined`. */
  predicate SameKind(a: Value, b: Value) {
    (a.Num? && b.Num?) || (a.Str? && b.Str?) || (a.Undefined? && b.Undefined?)
  }

  lemma {:induction false} StrLessIsLexicographic(a: string, b: string)
    ensures StrLess(a, b) <==> Lexicographic(a, b)
    decreases |a|
  {
    if |a| == 0 || |b| == 0 {
      if |b| == 0 {
        assert !Lexicographic(a, b);
      } else {
        assert a == b[..0];
      }
    } else if a[0] != b[0] {
      if a[0] < b[0] {
        assert a[..0] == b[..0];
      } else {
        assert !Lexicographic(a, b) by {
          if |a| < |b| {
            assert b[..|a|][0] == b[0];
          }
          forall i | 0 < i <= |a| && i <= |b|
            ensures a[..i] != b[..i]
          {
            assert a[..i][0] == a[0] && b[..i][0] == b[0];
          }
        }
      }
    } else {
      StrLessIsLexicographic(a[1..], b[1..]);
      var a', b' := a[1..], b[1..];
      if Lexicographic(a', b') {
        if |a'| < |b'| && a' == b'[..|a'|] {
          assert a == [a[0]] + a';
          assert b[..|a|] == [b[0]] + b'[..|a'|];
        } else {
          var i :| 0 <= i < |a'| && i < |b'| && a'[..i] == b'[..i] && a'[i] < b'[i];
          assert a[..i + 1] == [a[0]] + a'[..i];
          assert b[..i + 1] == [b[0]] + b'[..i];
          assert a[i + 1] == a'[i] && b[i + 1] == b'[i];
        }
      }
      if Lexicographic(a, b) {
        if |a| < |b| && a == b[..|a|] {
          assert a' == b'[..|a'|];
        } else {
          var i :| 0 <= i < |a| && i < |b| && a[..i] == b[..i] && a[i] < b[i];
          assert i != 0;
          assert a'[..i - 1] == a[..i][1..];
          assert b'[..i - 1] == b[..i][1..];
          assert a'[i - 1] == a[i] && b'[i - 1] == b[i];
        }
      }
    }
  }

  lemma {:induction false} StrLessAsymmetric(a: string, b: string)
    requires StrLess(a, b)
    ensures !StrLess(b, a)
    decreases |a|
  {
    if |a| > 0 && a[0] == b[0] {
      StrLessAsymmetric(a[1..], b[1..]);
    }
  }

  lemma {:induction false} StrLessTransitive(a: string, b: string, c: string)
    requires StrLess(a, b) && StrLess(b, c)
    ensures StrLess(a, c)
    decreases |a|
  {
    if |a| > 0 && a[0] == b[0] && b[0] == c[0] {
      StrLessTransitive(a[1..], b[1..], c[1..]);
    }
  }

  lemma {:induction false} StrLessTotal(a: string, b: string)
    requires a != b
    ensures StrLess(a, b) || StrLess(b, a)
    decreases |a|
  {
    if |a| > 0 && |b| > 0 && a[0] == b[0] {
      assert a[1..] != b[1..] by {
        assert a == [a[0]] + a[1..];
        assert b == [b[0]] + b[1..];
      }
      StrLessTotal(a[1..], b[1..]);
    }
  }

  lemma LessAsymmetric(a: Value, b: Value)
    ensures Less(a, b) ==> !Less(b, a)
  {
    if a.Str? && b.Str? && StrLess(a.s, b.s) {
      StrLessAsymmetric(a.s, b.s);
    }
  }

  lemma LessTransitive(a: Value, b: Value, c: Value)
    requires Less(a, b) && Less(b, c)
    ensures Less(a, c)
  {
    if a.Str? {
      StrLessTransitive(a.s, b.s, c.s);
    }
  }

  /** On values of one kind, `<` is a strict total order. */
  lemma LessTotalOnSameKind(a: Value, b: Value)
    requires SameKind(a, b) && a != b
    ensures Less(a, b) || Less(b, a)
  {
    if a.Str? {
      StrLessTotal(a.s, b.s);
    }
  }

  /** "not greater than" is transitive on values of one kind (it is not on
      mixed kinds: `1`, `undefined`, `0` is a chain of non-inversions). */
  lemma NotLessTransitive(a: Value, b: Value, c: Value)
    requires SameKind(a, b) && SameKind(b, c)
    requires !Less(b, a) && !Less(c, b)
    ensures !Less(c, a)
  {
    if a != b {
      LessTotalOnSameKind(a, b);
    }
    if b != c {
      LessTotalOnSameKind(b, c);
    }
    if a != b && b != c {
      LessTransitive(a, b, c);
    }
    if a != c && Less(a, c) {
      LessAsymmetric(a, c);
    } else if a == c {
      LessAsymmetric(a, a);
    }
  }
}
