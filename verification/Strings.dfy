/** Characters and strings as Python sees them: their order (by code point, a proper prefix first), classes and sizes. */
module Strings {
  import opened Sorting

  predicate StringLe(a: string, b: string) {
    a == "" || (b != "" && (a[0] < b[0] || (a[0] == b[0] && StringLe(a[1..], b[1..]))))
  }

  predicate StringLt(a: string, b: string) { StringLe(a, b) && a != b }

  lemma {:induction false} StringLeTotal(a: string, b: string)
    ensures StringLe(a, b) || StringLe(b, a)
  {
    if a != "" && b != "" && a[0] == b[0] {
      StringLeTotal(a[1..], b[1..]);
    }
  }

  lemma {:induction false} StringLeAntiSymmetric(a: string, b: string)
    requires StringLe(a, b) && StringLe(b, a)
    ensures a == b
  {
    if a != "" && b != "" {
      StringLeAntiSymmetric(a[1..], b[1..]);
      assert a == [a[0]] + a[1..] && b == [b[0]] + b[1..];
    }
  }

  lemma {:induction false} StringLeTransitive(a: string, b: string, c: string)
    requires StringLe(a, b) && StringLe(b, c)
    ensures StringLe(a, c)
  {
    if a != "" && a[0] == b[0] && b[0] == c[0] {
      StringLeTransitive(a[1..], b[1..], c[1..]);
    }
  }

  /** The order of Python's strings: by the first code point in which they differ, a prefix first. */
  lemma {:induction false} StringLeExactly(a: string, b: string)
    ensures StringLe(a, b) <==> a <= b || exists i :: 0 <= i < |a| && i < |b| && a[..i] == b[..i] && a[i] as int < b[i] as int
  {
    if a != "" && b != "" {
      var x, y := a[1..], b[1..];
      StringLeExactly(x, y);
      assert a == [a[0]] + x && b == [b[0]] + y;
      if a[0] == b[0] {
        assert x <= y ==> a <= b;
        forall i | 0 <= i < |x| && i < |y| && x[..i] == y[..i] ensures a[..i + 1] == b[..i + 1] {
          assert a[..i + 1] == [a[0]] + x[..i] && b[..i + 1] == [b[0]] + y[..i];
        }
        forall i | 0 < i < |a| && i < |b| && a[..i] == b[..i] ensures x[..i - 1] == y[..i - 1] {
          assert x[..i - 1] == a[..i][1..] && y[..i - 1] == b[..i][1..];
        }
        assert forall i :: 0 <= i < |x| && i < |y| ==> x[i] == a[i + 1] && y[i] == b[i + 1];
        assert forall i :: 0 < i < |a| && i < |b| ==> a[i] == x[i - 1] && b[i] == y[i - 1];
      } else {
        assert a[..0] == b[..0];
        forall i | 0 < i < |a| && i < |b| ensures a[..i] != b[..i] {
          assert a[..i][0] == a[0] && b[..i][0] == b[0];
        }
      }
    }
  }

  lemma StringLeOrders()
    ensures TotalPreorder(StringLe) && AntiSymmetric(StringLe)
  {
    forall a, b ensures StringLe(a, b) || StringLe(b, a) {
      StringLeTotal(a, b);
    }
    forall a, b, c | StringLe(a, b) && StringLe(b, c) ensures StringLe(a, c) {
      StringLeTransitive(a, b, c);
    }
    forall a, b | StringLe(a, b) && StringLe(b, a) ensures a == b {
      StringLeAntiSymmetric(a, b);
    }
  }

  predicate IsDigit(c: char) { '0' <= c <= '9' }

  /** Lower case, for the letters a to z; other letters stay. */
  function LowerChar(c: char): char { if 'A' <= c <= 'Z' then c - 'A' + 'a' else c }

  /** What `str.strip()` removes. */
  predicate IsSpace(c: char) {
    || '\t' <= c <= '\r' || '\U{001C}' <= c <= ' ' || c == '\U{0085}' || c == '\U{00A0}' || c == '\U{1680}'
    || '\U{2000}' <= c <= '\U{200A}' || c == '\U{2028}' || c == '\U{2029}' || c == '\U{202F}' || c == '\U{205F}'
    || c == '\U{3000}'
  }

  /** The code points Python counts as whitespace. */
  const SPACES: set<int> :=
    {9, 10, 11, 12, 13, 28, 29, 30, 31, 32, 133, 160, 5760, 8192, 8193, 8194, 8195, 8196, 8197, 8198, 8199, 8200, 8201, 8202,
     8232, 8233, 8239, 8287, 12288}

  lemma IsSpaceExactly(c: char)
    ensures IsSpace(c) <==> c as int in SPACES
  {
  }

  /** Bytes of a character in UTF-8. */
  function Utf8Size(c: char): nat {
    if c as int < 0x80 then 1 else if c as int < 0x800 then 2 else if c as int < 0x1_0000 then 3 else 4
  }

  function Digit(n: nat): char
    requires n < 10
  {
    '0' + n as char
  }

  function Decimal(n: nat): string {
    if n < 10 then [Digit(n)] else Decimal(n / 10) + [Digit(n % 10)]
  }
}
