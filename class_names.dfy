/** `cn`, the class-name joiner (src/lib/utils/cn.ts). */
module ClassNames {
  import opened JsText

  /** One argument of `cn`: a class name, or one of the falsy values it accepts. */
  datatype ClassValue = Undefined | Null | False | Name(name: string)

  /** What `filter(Boolean)` keeps: a non-empty class name. */
  predicate Truthy(c: ClassValue) {
    c.Name? && c.name != ""
  }

  /** `classes.filter(Boolean)`, as the strings it keeps. */
  function Kept(classes: seq<ClassValue>): (r: seq<string>)
    ensures |r| <= |classes|
    ensures forall i :: 0 <= i < |r| ==> r[i] != ""
    ensures r == [] <==> forall i :: 0 <= i < |classes| ==> !Truthy(classes[i])
  {
    if classes == [] then []
    else (if Truthy(classes[0]) then [classes[0].name] else []) + Kept(classes[1..])
  }

  /** `parts.join(sep)`. */
  function Join(parts: seq<string>, sep: string): string
  {
    if parts == [] then ""
    else if |parts| == 1 then parts[0]
    else parts[0] + sep + Join(parts[1..], sep)
  }

  /** `cn(...classes)`: the truthy arguments, in order, separated by single spaces. */
  function Cn(classes: seq<ClassValue>): (r: string)
    ensures r == "" <==> Kept(classes) == []
    ensures |Kept(classes)| == 1 ==> r == Kept(classes)[0]
  {
    JoinEnds(Kept(classes), " ");
    Join(Kept(classes), " ")
  }

  /** A join is empty only for no parts, starts with the first part, is followed by the separator, and ends with the last part. */
  lemma {:induction false} JoinEnds(parts: seq<string>, sep: string)
    ensures parts == [] ==> Join(parts, sep) == ""
    ensures parts != [] ==>
      var r := Join(parts, sep);
      |r| >= |parts[0]| && r[..|parts[0]|] == parts[0] &&
      |r| >= |parts[|parts| - 1]| && r[|r| - |parts[|parts| - 1]|..] == parts[|parts| - 1]
    ensures |parts| >= 2 ==>
      var r := Join(parts, sep);
      |r| >= |parts[0]| + |sep| && r[|parts[0]|..|parts[0]| + |sep|] == sep
  {
    if |parts| >= 2 {
      JoinEnds(parts[1..], sep);
      var rest := Join(parts[1..], sep);
      assert Join(parts, sep) == parts[0] + sep + rest;
      assert parts[1..][|parts[1..]| - 1] == parts[|parts| - 1];
    }
  }

  /** Filtering keeps the arguments' order: filtering two argument lists one after the other is filtering their concatenation. */
  lemma {:induction false} KeptAppend(a: seq<ClassValue>, b: seq<ClassValue>)
    ensures Kept(a + b) == Kept(a) + Kept(b)
    decreases |a|
  {
    if a != [] {
      assert (a + b)[0] == a[0];
      assert (a + b)[1..] == a[1..] + b;
      KeptAppend(a[1..], b);
    } else {
      assert a + b == b;
    }
  }

  lemma {:induction false} JoinAppend(x: seq<string>, y: seq<string>, sep: string)
    requires x != [] && y != []
    ensures Join(x + y, sep) == Join(x, sep) + sep + Join(y, sep)
    decreases |x|
  {
    if |x| > 1 {
      assert (x + y)[1..] == x[1..] + y;
      JoinAppend(x[1..], y, sep);
    }
  }

  /** The result is empty exactly when no argument is truthy. */
  lemma CnEmpty(classes: seq<ClassValue>)
    ensures Cn(classes) == "" <==> forall i :: 0 <= i < |classes| ==> !Truthy(classes[i])
  {
  }

  /** With exactly one truthy argument, `cn` returns it unchanged. */
  lemma CnSingle(classes: seq<ClassValue>, j: int)
    requires 0 <= j < |classes| && Truthy(classes[j])
    requires forall i :: 0 <= i < |classes| && i != j ==> !Truthy(classes[i])
    ensures Cn(classes) == classes[j].name
  {
    KeptAppend(classes[..j], classes[j..]);
    assert classes == classes[..j] + classes[j..];
    KeptAppend([classes[j]], classes[j + 1..]);
    assert classes[j..] == [classes[j]] + classes[j + 1..];
    assert Kept(classes[..j]) == [] by {
      forall i | 0 <= i < j ensures !Truthy(classes[..j][i]) {
        assert classes[..j][i] == classes[i];
      }
    }
    var rest := classes[j + 1..];
    assert Kept(rest) == [] by {
      forall i | 0 <= i < |rest| ensures !Truthy(rest[i]) {
        assert rest[i] == classes[j + 1 + i];
      }
    }
  }

  /** Joining two argument lists joins their results with one space, dropping an empty side. */
  lemma CnAppend(a: seq<ClassValue>, b: seq<ClassValue>)
    ensures Cn(a + b) ==
      if Cn(a) == "" then Cn(b) else if Cn(b) == "" then Cn(a) else Cn(a) + " " + Cn(b)
  {
    KeptAppend(a, b);
    CnEmpty(a);
    CnEmpty(b);
    var x, y := Kept(a), Kept(b);
    if x == [] {
      assert x + y == y;
    } else if y == [] {
      assert x + y == x;
    } else {
      JoinAppend(x, y, " ");
    }
  }

  /** Class names without spaces come back out of the result by splitting it on spaces. */
  lemma {:induction false} SplitJoin(parts: seq<string>, sep: char)
    requires parts != []
    requires forall i, k :: 0 <= i < |parts| && 0 <= k < |parts[i]| ==> parts[i][k] != sep
    ensures Split(Join(parts, [sep]), sep) == parts
    decreases |parts|
  {
    if |parts| == 1 {
      SplitNoSeparator(parts[0], sep);
    } else {
      SplitJoin(parts[1..], sep);
      SplitAtFirst(parts[0], sep, Join(parts[1..], [sep]));
      assert [parts[0]] + parts[1..] == parts;
    }
  }

  lemma CnSplit(classes: seq<ClassValue>)
    requires exists i :: 0 <= i < |classes| && Truthy(classes[i])
    requires forall i, k :: 0 <= i < |classes| && classes[i].Name? && 0 <= k < |classes[i].name| ==>
      classes[i].name[k] != ' '
    ensures Split(Cn(classes), ' ') == Kept(classes)
  {
    var parts := Kept(classes);
    KeptNames(classes);
    forall i, k | 0 <= i < |parts| && 0 <= k < |parts[i]| ensures parts[i][k] != ' ' {
      assert parts[i] in parts;
      var j :| 0 <= j < |classes| && classes[j] == Name(parts[i]);
    }
    SplitJoin(parts, ' ');
  }

  /** Every kept string is one of the arguments' names. */
  lemma {:induction false} KeptNames(classes: seq<ClassValue>)
    ensures forall s :: s in Kept(classes) ==> exists i :: 0 <= i < |classes| && classes[i] == Name(s)
  {
    if classes != [] {
      KeptNames(classes[1..]);
      forall s | s in Kept(classes)
        ensures exists i :: 0 <= i < |classes| && classes[i] == Name(s)
      {
        if s in Kept(classes[1..]) {
          var i :| 0 <= i < |classes[1..]| && classes[1..][i] == Name(s);
          assert classes[i + 1] == Name(s);
        } else {
          assert classes[0] == Name(s);
        }
      }
    }
  }
}
