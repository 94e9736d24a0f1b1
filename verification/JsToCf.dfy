// KJSValueToCFType: copying a possibly cyclic graph of JavaScript objects into CF values.
module JsToCf {
  import opened Options

  type Id = nat

  // A JavaScript value.  Numbers and the CF copies of user objects are opaque; a user object
  // may have no copy.
  datatype Value =
    | Empty
    | Boolean(b: bool)
    | String(s: string)
    | Number(n: int)
    | User(copy: Option<int>)
    | Object(id: Id)
    | UndefinedOrNull

  // An object as its getters show it.
  datatype Obj = Obj(
    className: string,
    names: seq<string>,
    has: set<string>,
    properties: map<string, Value>,
    elements: map<nat, Value>,
    length: nat)

  type Heap = map<Id, Obj>

  datatype Cf =
    | CfNull
    | CfBoolean(b: bool)
    | CfString(s: string)
    | CfNumber(n: int)
    | CfUser(u: int)
    | CfArray(elements: seq<Option<Cf>>)
    | CfDictionary(entries: map<string, Cf>)

  function Get(o: Obj, name: string): Value
  {
    if name in o.properties then o.properties[name] else UndefinedOrNull
  }

  function GetIndex(o: Obj, i: nat): Value { if i in o.elements then o.elements[i] else UndefinedOrNull }

  // All values an object can yield are empty, plain, or objects of the heap.
  predicate IsIn(v: Value, heap: Heap) { v.Object? ==> v.id in heap }

  predicate Closed(heap: Heap)
  {
    forall id :: id in heap ==>
      && (forall n :: n in heap[id].properties ==> IsIn(heap[id].properties[n], heap))
      && (forall i :: i in heap[id].elements ==> IsIn(heap[id].elements[i], heap))
  }

  // ---- What kind of object ---------------------------------------------------------------

  predicate IsDigit(c: char) { '0' <= c <= '9' }

  predicate AllDigits(s: string) { forall i :: 0 <= i < |s| ==> IsDigit(s[i]) }

  // Arrays are recognised by class name; if associative arrays are to be converted, an array
  // with a property name that is not a number is treated as a dictionary.
  predicate IsArray(o: Obj, associative: bool)
  {
    o.className == "Array" && (associative ==> forall i :: 0 <= i < |o.names| ==> AllDigits(o.names[i]))
  }

  // ---- The conversion ------------------------------------------------------------------------

  function Left(heap: Heap, path: set<Id>): nat { |heap.Keys - path| }

  lemma LessIsLeft(heap: Heap, path: set<Id>, id: Id)
    requires id in heap && id !in path
    ensures Left(heap, path + {id}) < Left(heap, path)
  {
    assert heap.Keys - path == (heap.Keys - (path + {id})) + {id};
  }

  // The conversion of a value below the objects on path.
  function Convert(heap: Heap, associative: bool, v: Value, path: set<Id>): Option<Cf>
    requires Closed(heap) && IsIn(v, heap)
    decreases Left(heap, path), 0
  {
    match v
    case Empty => None
    case Boolean(b) => Some(CfBoolean(b))
    case String(s) => Some(CfString(s))
    case Number(n) => Some(CfNumber(n))
    case User(copy) => if copy.Some? then Some(CfUser(copy.value)) else None
    case UndefinedOrNull => Some(CfNull)
    case Object(id) =>
      if id in path then Some(CfNull)
      else
        LessIsLeft(heap, path, id);
        var o := heap[id];
        if IsArray(o, associative) then Some(CfArray(ConvertElements(heap, associative, o, o.length, path + {id})))
        else Some(CfDictionary(ConvertEntries(heap, associative, o, |o.names|, path + {id})))
  }

  // The first n elements of an array.
  function ConvertElements(heap: Heap, associative: bool, o: Obj, n: nat, path: set<Id>): (s: seq<Option<Cf>>)
    requires Closed(heap) && o in heap.Values
    ensures |s| == n
    decreases Left(heap, path), 1, n
  {
    if n == 0 then []
    else ConvertElements(heap, associative, o, n - 1, path) + [Convert(heap, associative, GetIndex(o, n - 1), path)]
  }

  // The first n property names of a dictionary; a name without a value is left out.
  function ConvertEntries(heap: Heap, associative: bool, o: Obj, n: nat, path: set<Id>): map<string, Cf>
    requires Closed(heap) && o in heap.Values && n <= |o.names|
    decreases Left(heap, path), 1, n
  {
    if n == 0 then map[]
    else
      var m := ConvertEntries(heap, associative, o, n - 1, path);
      var name := o.names[n - 1];
      if name !in o.has then m
      else AddValue(m, name, Convert(heap, associative, Get(o, name), path))
  }

  // CFDictionaryAddValue keeps the first value of a key; there is no call without a value.
  function AddValue(m: map<string, Cf>, name: string, value: Option<Cf>): map<string, Cf>
  {
    if value.None? || name in m then m else m[name := value.value]
  }

  // ---- The imperative conversion ---------------------------------------------------------------

  // ObjectImpList: the objects being converted, innermost first.
  datatype ObjectImpList = Nil | Cons(imp: Id, next: ObjectImpList)

  function Ids(imps: ObjectImpList): set<Id>
  {
    match imps
    case Nil => {}
    case Cons(imp, next) => {imp} + Ids(next)
  }

  function Length(imps: ObjectImpList): nat
  {
    match imps
    case Nil => 0
    case Cons(_, next) => 1 + Length(next)
  }

  // The list holds different objects of the heap.
  predicate IsPath(imps: ObjectImpList, heap: Heap)
  {
    match imps
    case Nil => true
    case Cons(imp, next) => imp in heap && imp !in Ids(next) && IsPath(next, heap)
  }

  lemma {:induction false} PathIsCounted(imps: ObjectImpList, heap: Heap)
    requires IsPath(imps, heap)
    ensures Ids(imps) <= heap.Keys && |Ids(imps)| == Length(imps)
  {
    match imps
    case Nil =>
    case Cons(imp, next) => PathIsCounted(next, heap);
  }

  // The recursion is never deeper than there are objects.
  lemma PathIsShort(imps: ObjectImpList, heap: Heap)
    requires IsPath(imps, heap)
    ensures Length(imps) + Left(heap, Ids(imps)) == |heap.Keys|
  {
    PathIsCounted(imps, heap);
    assert heap.Keys == (heap.Keys - Ids(imps)) + Ids(imps);
  }

  method IsOnPath(imp: Id, imps: ObjectImpList) returns (found: bool)
    ensures found <==> imp in Ids(imps)
  {
    var temp := imps;
    while temp.Cons?
      invariant imp in Ids(imps) <==> imp in Ids(temp)
      decreases temp
    {
      if imp == temp.imp {
        return true;
      }
      temp := temp.next;
    }
    return false;
  }

  // The class name, and the digits of every property name from the last to the first.
  method FindIsArray(o: Obj, associative: bool) returns (isArray: bool)
    ensures isArray == IsArray(o, associative)
    ensures isArray <==>
      o.className == "Array" &&
      (associative ==> forall k, i :: 0 <= k < |o.names| && 0 <= i < |o.names[k]| ==> '0' <= o.names[k][i] <= '9')
  {
    isArray := false;
    if o.className == "Array" {
      isArray := true;
      if associative {
        var iter := 0;
        while iter != |o.names| && isArray
          invariant 0 <= iter <= |o.names|
          invariant isArray ==> forall i :: 0 <= i < iter ==> AllDigits(o.names[i])
          invariant !isArray ==> exists i :: 0 <= i < |o.names| && !AllDigits(o.names[i])
          decreases |o.names| - iter
        {
          var ustr := o.names[iter];
          var size := |ustr|;
          while size > 0
            invariant 0 <= size <= |ustr|
            invariant isArray && forall i :: size <= i < |ustr| ==> IsDigit(ustr[i])
          {
            size := size - 1;
            if ustr[size] < '0' || ustr[size] > '9' {
              isArray := false;
              assert !AllDigits(o.names[iter]);
              break;
            }
          }
          iter := iter + 1;
        }
      }
    }
  }

  lemma GettersStayIn(heap: Heap, o: Obj, i: nat, name: string)
    requires Closed(heap) && o in heap.Values
    ensures IsIn(GetIndex(o, i), heap) && IsIn(Get(o, name), heap)
  {
    var id :| id in heap && heap[id] == o;
  }

  // KJSValueToCFTypeInternal.
  method ConvertInternal(heap: Heap, associative: bool, inValue: Value, inImps: ObjectImpList) returns (result: Option<Cf>)
    requires Closed(heap) && IsIn(inValue, heap) && IsPath(inImps, heap)
    ensures result == Convert(heap, associative, inValue, Ids(inImps))
    decreases Left(heap, Ids(inImps)), 0
  {
    hide Closed, Left, IsArray, ConvertElements, ConvertEntries;
    if !inValue.Object? {
      match inValue
      case Empty => return None;
      case Boolean(b) => return Some(CfBoolean(b));
      case String(s) => return Some(CfString(s));
      case Number(n) => return Some(CfNumber(n));
      case User(copy) => return if copy.Some? then Some(CfUser(copy.value)) else None;
      case UndefinedOrNull => return Some(CfNull);
    }
    var onPath := IsOnPath(inValue.id, inImps);
    if onPath {
      return Some(CfNull);
    }
    var o := heap[inValue.id];
    var imps := Cons(inValue.id, inImps);
    assert Ids(imps) == Ids(inImps) + {inValue.id};
    LessIsLeft(heap, Ids(inImps), inValue.id);
    var isArray := FindIsArray(o, associative);
    if isArray {
      var elements := ConvertArray(heap, associative, o, imps);
      return Some(CfArray(elements));
    }
    var entries := ConvertDictionary(heap, associative, o, imps);
    return Some(CfDictionary(entries));
  }

  // The loop that appends to the array.
  method ConvertArray(heap: Heap, associative: bool, o: Obj, imps: ObjectImpList) returns (result: seq<Option<Cf>>)
    requires Closed(heap) && o in heap.Values && IsPath(imps, heap)
    ensures result == ConvertElements(heap, associative, o, o.length, Ids(imps))
    decreases Left(heap, Ids(imps)), 1
  {
    hide Closed, Left, Convert, GetIndex, Get;
    result := [];
    for i := 0 to o.length
      invariant result == ConvertElements(heap, associative, o, i, Ids(imps))
    {
      GettersStayIn(heap, o, i, "");
      var cfValue := ConvertInternal(heap, associative, GetIndex(o, i), imps);
      result := result + [cfValue];
    }
  }

  // The loop that adds to the dictionary.
  method ConvertDictionary(heap: Heap, associative: bool, o: Obj, imps: ObjectImpList) returns (result: map<string, Cf>)
    requires Closed(heap) && o in heap.Values && IsPath(imps, heap)
    ensures result == ConvertEntries(heap, associative, o, |o.names|, Ids(imps))
    decreases Left(heap, Ids(imps)), 1
  {
    hide Closed, Left, Convert, GetIndex, Get;
    result := map[];
    for iter := 0 to |o.names|
      invariant result == ConvertEntries(heap, associative, o, iter, Ids(imps))
    {
      var propName := o.names[iter];
      if propName in o.has {
        GettersStayIn(heap, o, 0, propName);
        var cfValue := ConvertInternal(heap, associative, Get(o, propName), imps);
        if cfValue.Some? && propName !in result {
          result := result[propName := cfValue.value];
        }
      }
    }
  }

  method KJSValueToCFType(heap: Heap, associative: bool, inValue: Value) returns (result: Option<Cf>)
    requires Closed(heap) && IsIn(inValue, heap)
    ensures result == Convert(heap, associative, inValue, {})
  {
    result := ConvertInternal(heap, associative, inValue, Nil);
  }

  // ---- What each value converts to -----------------------------------------------------------------

  lemma LeavesConvert(heap: Heap, associative: bool, v: Value, path: set<Id>)
    requires Closed(heap) && IsIn(v, heap) && !v.Object?
    ensures var r := Convert(heap, associative, v, path);
      && (r.None? <==> v == Empty || v == User(None))
      && (r == Some(CfNull) <==> v == UndefinedOrNull)
      && (forall b :: v == Boolean(b) <==> r == Some(CfBoolean(b)))
      && (forall s :: v == String(s) <==> r == Some(CfString(s)))
      && (forall n :: v == Number(n) <==> r == Some(CfNumber(n)))
      && (forall u :: v == User(Some(u)) <==> r == Some(CfUser(u)))
  {
  }

  lemma ArrayMeans(o: Obj, associative: bool)
    ensures IsArray(o, associative) <==>
      o.className == "Array" &&
      (!associative || forall k, i :: 0 <= k < |o.names| && 0 <= i < |o.names[k]| ==> '0' <= o.names[k][i] <= '9')
  {
    if IsArray(o, associative) && associative {
      forall k, i | 0 <= k < |o.names| && 0 <= i < |o.names[k]| ensures '0' <= o.names[k][i] <= '9' {
        assert AllDigits(o.names[k]);
      }
    }
  }

  // Off the path, an object of class Array becomes an array of its length, each element the
  // conversion of what stands at its index; unless associative arrays are converted and a
  // character of a property name is no digit.
  lemma ArraysConvert(heap: Heap, associative: bool, id: Id, path: set<Id>)
    requires Closed(heap) && id in heap && id !in path && heap[id].className == "Array"
    requires !associative || forall k, i :: 0 <= k < |heap[id].names| && 0 <= i < |heap[id].names[k]| ==>
      '0' <= heap[id].names[k][i] <= '9'
    ensures var o := heap[id]; var r := Convert(heap, associative, Object(id), path);
      && r.Some? && r.value.CfArray? && |r.value.elements| == o.length
      && forall i :: 0 <= i < o.length ==>
           && (i in o.elements ==>
                 IsIn(o.elements[i], heap) && r.value.elements[i] == Convert(heap, associative, o.elements[i], path + {id}))
           && (i !in o.elements ==> r.value.elements[i] == Some(CfNull))
  {
    hide Closed, Left, ConvertElements, IsArray;
    var o := heap[id];
    ArrayMeans(o, associative);
    LessIsLeft(heap, path, id);
    var elements := ConvertElements(heap, associative, o, o.length, path + {id});
    forall i | 0 <= i < o.length
      ensures i in o.elements ==>
        IsIn(o.elements[i], heap) && elements[i] == Convert(heap, associative, o.elements[i], path + {id})
      ensures i !in o.elements ==> elements[i] == Some(CfNull)
    {
      ElementsAre(heap, associative, o, o.length, path + {id}, 0, i);
    }
  }

  // Every other object becomes a dictionary of the properties that exist and have a value.
  lemma OthersConvert(heap: Heap, associative: bool, id: Id, path: set<Id>)
    requires Closed(heap) && id in heap && id !in path
    requires heap[id].className != "Array" || (associative && exists k, i ::
      0 <= k < |heap[id].names| && 0 <= i < |heap[id].names[k]| && !('0' <= heap[id].names[k][i] <= '9'))
    ensures var o := heap[id]; var r := Convert(heap, associative, Object(id), path);
      && r.Some? && r.value.CfDictionary?
      && forall name ::
           && (name in r.value.entries ==> name in o.has && name in o.names)
           && (name in o.has && name in o.names && name in o.properties ==>
                 && IsIn(o.properties[name], heap)
                 && var c := Convert(heap, associative, o.properties[name], path + {id});
                    (name in r.value.entries <==> c.Some?) && (c.Some? ==> r.value.entries[name] == c.value))
           && (name in o.has && name in o.names && name !in o.properties ==>
                 name in r.value.entries && r.value.entries[name] == CfNull)
  {
    hide Closed, Left, ConvertEntries, IsArray;
    var o := heap[id];
    ArrayMeans(o, associative);
    LessIsLeft(heap, path, id);
    assert o.names[..|o.names|] == o.names;
    forall name ensures IsIn(Get(o, name), heap)
      ensures var m, c := ConvertEntries(heap, associative, o, |o.names|, path + {id}),
                          Convert(heap, associative, Get(o, name), path + {id});
        && (name in m <==> name in o.has && name in o.names && c.Some?)
        && (name in m ==> c == Some(m[name]))
    {
      EntriesAre(heap, associative, o, |o.names|, path + {id}, name);
    }
  }

  // ---- Where the conversion cuts a cycle -----------------------------------------------------------

  // b is an element of the array, or a property of the dictionary, that a is converted to.
  predicate IsChild(heap: Heap, associative: bool, a: Id, b: Id)
    requires a in heap
  {
    var o := heap[a];
    if IsArray(o, associative) then exists i :: 0 <= i < o.length && GetIndex(o, i) == Object(b)
    else exists k :: 0 <= k < |o.names| && o.names[k] in o.has && Get(o, o.names[k]) == Object(b)
  }

  // Somewhere below, an object is met that is already being converted.
  ghost predicate Truncates(heap: Heap, associative: bool, id: Id, path: set<Id>)
    requires id in heap
    decreases Left(heap, path)
  {
    id in path ||
    (LessIsLeft(heap, path, id);
     exists b :: b in heap && IsChild(heap, associative, id, b) && Truncates(heap, associative, b, path + {id}))
  }

  ghost predicate IsWalk(heap: Heap, associative: bool, w: seq<Id>)
  {
    && |w| > 0 && (forall i :: 0 <= i < |w| ==> w[i] in heap)
    && forall i :: 0 < i < |w| ==> IsChild(heap, associative, w[i - 1], w[i])
  }

  predicate Repeats(w: seq<Id>) { exists i, j :: 0 <= i < j < |w| && w[i] == w[j] }

  // A walk that ends on the path, or crosses itself.
  ghost predicate Closes(heap: Heap, associative: bool, id: Id, path: set<Id>, w: seq<Id>)
  {
    IsWalk(heap, associative, w) && w[0] == id && (w[|w| - 1] in path || Repeats(w))
  }

  lemma WalkFromParent(heap: Heap, associative: bool, id: Id, b: Id, path: set<Id>, v: seq<Id>)
    requires id in heap && IsChild(heap, associative, id, b) && Closes(heap, associative, b, path + {id}, v)
    ensures Closes(heap, associative, id, path, [id] + v)
  {
    hide IsChild;
    var w := [id] + v;
    if Repeats(v) {
      var i, j :| 0 <= i < j < |v| && v[i] == v[j];
      assert w[i + 1] == w[j + 1];
    } else if v[|v| - 1] == id {
      assert w[0] == w[|w| - 1];
    }
    forall i | 0 < i < |w| ensures IsChild(heap, associative, w[i - 1], w[i]) {
      if i > 1 { assert IsChild(heap, associative, v[i - 2], v[i - 1]); }
    }
  }

  lemma {:induction false} TruncationIsAWalk(heap: Heap, associative: bool, id: Id, path: set<Id>) returns (w: seq<Id>)
    requires id in heap && Truncates(heap, associative, id, path)
    ensures Closes(heap, associative, id, path, w)
    decreases Left(heap, path)
  {
    hide IsChild, Left;
    if id in path {
      return [id];
    }
    LessIsLeft(heap, path, id);
    var b :| b in heap && IsChild(heap, associative, id, b) && Truncates(heap, associative, b, path + {id});
    var v := TruncationIsAWalk(heap, associative, b, path + {id});
    WalkFromParent(heap, associative, id, b, path, v);
    return [id] + v;
  }

  lemma {:induction false} WalkIsATruncation(heap: Heap, associative: bool, id: Id, path: set<Id>, w: seq<Id>)
    requires Closes(heap, associative, id, path, w)
    ensures Truncates(heap, associative, id, path)
    decreases |w|
  {
    if id in path {
      return;
    }
    LessIsLeft(heap, path, id);
    assert IsChild(heap, associative, w[0], w[1]);
    var v := w[1..];
    if exists j :: 0 < j < |w| && w[j] == id {
      var j :| 0 < j < |w| && w[j] == id;
      v := w[1..j + 1];
    } else if Repeats(w) {
      var i, j :| 0 <= i < j < |w| && w[i] == w[j];
      assert v[i - 1] == v[j - 1];
    }
    forall i | 0 < i < |v| ensures IsChild(heap, associative, v[i - 1], v[i]) {
      assert IsChild(heap, associative, w[i], w[i + 1]);
    }
    WalkIsATruncation(heap, associative, w[1], path + {id}, v);
  }

  // A cycle can be reached from the object.
  ghost predicate ReachesCycle(heap: Heap, associative: bool, id: Id)
  {
    exists w :: IsWalk(heap, associative, w) && w[0] == id && Repeats(w)
  }

  // An object is met again below itself exactly if a cycle can be reached.
  lemma TruncatesIffCycle(heap: Heap, associative: bool, id: Id)
    requires id in heap
    ensures Truncates(heap, associative, id, {}) <==> ReachesCycle(heap, associative, id)
  {
    if Truncates(heap, associative, id, {}) {
      var w := TruncationIsAWalk(heap, associative, id, {});
    }
    if ReachesCycle(heap, associative, id) {
      var w :| IsWalk(heap, associative, w) && w[0] == id && Repeats(w);
      WalkIsATruncation(heap, associative, id, {}, w);
    }
  }

  // A null for an object of the heap means exactly that it is on the path.
  lemma CycleNullIffOnPath(heap: Heap, associative: bool, id: Id, path: set<Id>)
    requires Closed(heap) && id in heap
    ensures Convert(heap, associative, Object(id), path) == Some(CfNull) <==> id in path
    ensures Convert(heap, associative, Object(id), path).Some?
  {
    hide Closed, IsArray, ConvertElements, ConvertEntries;
  }

  // ---- Acyclic graphs are unfolded --------------------------------------------------------------------

  ghost predicate IsCutAt(heap: Heap, associative: bool, v: Value, path: set<Id>)
    requires IsIn(v, heap)
  {
    v.Object? && Truncates(heap, associative, v.id, path)
  }

  // Where nothing is cut, the objects above do not matter.
  lemma {:induction false} PathDoesNotMatter(heap: Heap, associative: bool, v: Value, p: set<Id>, q: set<Id>)
    requires Closed(heap) && IsIn(v, heap) && p <= q && !IsCutAt(heap, associative, v, q)
    ensures Convert(heap, associative, v, p) == Convert(heap, associative, v, q)
    decreases Left(heap, p), 0
  {
    hide Closed, Left, IsArray, IsChild, ConvertElements, ConvertEntries;
    if v.Object? {
      LessIsLeft(heap, p, v.id);
      LessIsLeft(heap, q, v.id);
      var o := heap[v.id];
      assert forall b :: b in heap && IsChild(heap, associative, v.id, b) ==> !Truncates(heap, associative, b, q + {v.id});
      if IsArray(o, associative) {
        ChildrenAreElements(heap, associative, v.id);
        ElementsDoNotMatter(heap, associative, v.id, o.length, p + {v.id}, q + {v.id});
      } else {
        ChildrenAreEntries(heap, associative, v.id);
        EntriesDoNotMatter(heap, associative, v.id, |o.names|, p + {v.id}, q + {v.id});
      }
    }
  }

  lemma ChildrenAreElements(heap: Heap, associative: bool, id: Id)
    requires id in heap && IsArray(heap[id], associative)
    ensures forall i :: 0 <= i < heap[id].length && GetIndex(heap[id], i).Object? ==>
      IsChild(heap, associative, id, GetIndex(heap[id], i).id)
  {
    hide IsArray;
  }

  lemma ChildrenAreEntries(heap: Heap, associative: bool, id: Id)
    requires id in heap && !IsArray(heap[id], associative)
    ensures forall k :: 0 <= k < |heap[id].names| && heap[id].names[k] in heap[id].has && Get(heap[id], heap[id].names[k]).Object? ==>
      IsChild(heap, associative, id, Get(heap[id], heap[id].names[k]).id)
  {
    hide IsArray;
  }

  lemma {:induction false} ElementsDoNotMatter(heap: Heap, associative: bool, id: Id, n: nat, p: set<Id>, q: set<Id>)
    requires Closed(heap) && id in heap && p <= q && n <= heap[id].length
    requires forall i :: 0 <= i < heap[id].length && GetIndex(heap[id], i).Object? ==>
      IsChild(heap, associative, id, GetIndex(heap[id], i).id)
    requires forall b :: b in heap && IsChild(heap, associative, id, b) ==> !Truncates(heap, associative, b, q)
    ensures ConvertElements(heap, associative, heap[id], n, p) == ConvertElements(heap, associative, heap[id], n, q)
    decreases Left(heap, p), 1, n
  {
    hide Closed, Left, IsChild, Convert, GetIndex, Truncates;
    if n > 0 {
      GettersStayIn(heap, heap[id], n - 1, "");
      ElementsDoNotMatter(heap, associative, id, n - 1, p, q);
      PathDoesNotMatter(heap, associative, GetIndex(heap[id], n - 1), p, q);
    }
  }

  lemma {:induction false} EntriesDoNotMatter(heap: Heap, associative: bool, id: Id, n: nat, p: set<Id>, q: set<Id>)
    requires Closed(heap) && id in heap && p <= q && n <= |heap[id].names|
    requires forall k :: 0 <= k < |heap[id].names| && heap[id].names[k] in heap[id].has && Get(heap[id], heap[id].names[k]).Object? ==>
      IsChild(heap, associative, id, Get(heap[id], heap[id].names[k]).id)
    requires forall b :: b in heap && IsChild(heap, associative, id, b) ==> !Truncates(heap, associative, b, q)
    ensures ConvertEntries(heap, associative, heap[id], n, p) == ConvertEntries(heap, associative, heap[id], n, q)
    decreases Left(heap, p), 1, n
  {
    hide Closed, Left, IsChild, Convert, Get, Truncates, AddValue;
    if n > 0 {
      GettersStayIn(heap, heap[id], 0, heap[id].names[n - 1]);
      EntriesDoNotMatter(heap, associative, id, n - 1, p, q);
      if heap[id].names[n - 1] in heap[id].has {
        PathDoesNotMatter(heap, associative, Get(heap[id], heap[id].names[n - 1]), p, q);
      }
    }
  }

  // A longer path cuts no later.
  lemma {:induction false} LongerPathCuts(heap: Heap, associative: bool, id: Id, p: set<Id>, q: set<Id>)
    requires id in heap && p <= q && Truncates(heap, associative, id, p)
    ensures Truncates(heap, associative, id, q)
    decreases Left(heap, p)
  {
    hide Left, IsChild;
    if id !in q {
      LessIsLeft(heap, p, id);
      LessIsLeft(heap, q, id);
      var b :| b in heap && IsChild(heap, associative, id, b) && Truncates(heap, associative, b, p + {id});
      LongerPathCuts(heap, associative, b, p + {id}, q + {id});
    }
  }

  // Without a cycle below it, an object converts to the array or dictionary of the
  // conversions of its children, each as if it stood alone: shared objects are copied, none is
  // nulled, and the same holds for every child.
  lemma AcyclicIsUnfolded(heap: Heap, associative: bool, id: Id)
    requires Closed(heap) && id in heap && !ReachesCycle(heap, associative, id)
    ensures var o := heap[id];
      Convert(heap, associative, Object(id), {}) == Some(
        if IsArray(o, associative) then CfArray(ConvertElements(heap, associative, o, o.length, {}))
        else CfDictionary(ConvertEntries(heap, associative, o, |o.names|, {})))
    ensures forall b :: b in heap && IsChild(heap, associative, id, b) ==>
      !ReachesCycle(heap, associative, b) && Convert(heap, associative, Object(b), {}) != Some(CfNull)
  {
    hide Closed, Left, IsArray, IsChild, ReachesCycle, ConvertElements, ConvertEntries;
    var o, path := heap[id], {id};
    TruncatesIffCycle(heap, associative, id);
    LessIsLeft(heap, {}, id);
    assert {} + {id} == path;
    forall b | b in heap && IsChild(heap, associative, id, b)
      ensures !Truncates(heap, associative, b, path) && !ReachesCycle(heap, associative, b)
    {
      TruncatesIffCycle(heap, associative, b);
      if Truncates(heap, associative, b, {}) { LongerPathCuts(heap, associative, b, {}, path); }
    }
    forall b | b in heap && IsChild(heap, associative, id, b)
      ensures Convert(heap, associative, Object(b), {}) != Some(CfNull)
    {
      CycleNullIffOnPath(heap, associative, b, {});
    }
    if IsArray(o, associative) {
      ChildrenAreElements(heap, associative, id);
      ElementsDoNotMatter(heap, associative, id, o.length, {}, path);
    } else {
      ChildrenAreEntries(heap, associative, id);
      EntriesDoNotMatter(heap, associative, id, |o.names|, {}, path);
    }
  }

  // The plain unfolding, which knows no path; None where it is cut off at the given depth.
  function Unfold(heap: Heap, associative: bool, v: Value, depth: nat): Option<Cf>
    requires Closed(heap) && IsIn(v, heap)
    decreases depth, 0
  {
    match v
    case Empty => None
    case Boolean(b) => Some(CfBoolean(b))
    case String(s) => Some(CfString(s))
    case Number(n) => Some(CfNumber(n))
    case User(copy) => if copy.Some? then Some(CfUser(copy.value)) else None
    case UndefinedOrNull => Some(CfNull)
    case Object(id) =>
      if depth == 0 then None
      else
        var o := heap[id];
        if IsArray(o, associative) then Some(CfArray(UnfoldElements(heap, associative, o, o.length, depth - 1)))
        else Some(CfDictionary(UnfoldEntries(heap, associative, o, |o.names|, depth - 1)))
  }

  function UnfoldElements(heap: Heap, associative: bool, o: Obj, n: nat, depth: nat): (s: seq<Option<Cf>>)
    requires Closed(heap) && o in heap.Values
    ensures |s| == n
    decreases depth, 1, n
  {
    if n == 0 then []
    else UnfoldElements(heap, associative, o, n - 1, depth) + [Unfold(heap, associative, GetIndex(o, n - 1), depth)]
  }

  function UnfoldEntries(heap: Heap, associative: bool, o: Obj, n: nat, depth: nat): map<string, Cf>
    requires Closed(heap) && o in heap.Values && n <= |o.names|
    decreases depth, 1, n
  {
    if n == 0 then map[]
    else
      var m := UnfoldEntries(heap, associative, o, n - 1, depth);
      var name := o.names[n - 1];
      if name !in o.has then m else AddValue(m, name, Unfold(heap, associative, Get(o, name), depth))
  }

  lemma {:induction false} UncutIsUnfolded(heap: Heap, associative: bool, v: Value, path: set<Id>, depth: nat)
    requires Closed(heap) && IsIn(v, heap) && Left(heap, path) <= depth && !IsCutAt(heap, associative, v, path)
    ensures Convert(heap, associative, v, path) == Unfold(heap, associative, v, depth)
    decreases depth, 0
  {
    hide Closed, Left, IsArray, IsChild, ConvertElements, ConvertEntries, UnfoldElements, UnfoldEntries;
    if v.Object? {
      LessIsLeft(heap, path, v.id);
      var o := heap[v.id];
      assert forall b :: b in heap && IsChild(heap, associative, v.id, b) ==> !Truncates(heap, associative, b, path + {v.id});
      if IsArray(o, associative) {
        ChildrenAreElements(heap, associative, v.id);
        ElementsAreUnfolded(heap, associative, v.id, o.length, path + {v.id}, depth - 1);
      } else {
        ChildrenAreEntries(heap, associative, v.id);
        EntriesAreUnfolded(heap, associative, v.id, |o.names|, path + {v.id}, depth - 1);
      }
    }
  }

  lemma {:induction false} ElementsAreUnfolded(heap: Heap, associative: bool, id: Id, n: nat, path: set<Id>, depth: nat)
    requires Closed(heap) && id in heap && n <= heap[id].length && Left(heap, path) <= depth
    requires forall i :: 0 <= i < heap[id].length && GetIndex(heap[id], i).Object? ==>
      IsChild(heap, associative, id, GetIndex(heap[id], i).id)
    requires forall b :: b in heap && IsChild(heap, associative, id, b) ==> !Truncates(heap, associative, b, path)
    ensures ConvertElements(heap, associative, heap[id], n, path) == UnfoldElements(heap, associative, heap[id], n, depth)
    decreases depth, 1, n
  {
    hide Closed, Left, IsChild, Convert, Unfold, GetIndex, Truncates;
    if n > 0 {
      GettersStayIn(heap, heap[id], n - 1, "");
      ElementsAreUnfolded(heap, associative, id, n - 1, path, depth);
      UncutIsUnfolded(heap, associative, GetIndex(heap[id], n - 1), path, depth);
    }
  }

  lemma {:induction false} EntriesAreUnfolded(heap: Heap, associative: bool, id: Id, n: nat, path: set<Id>, depth: nat)
    requires Closed(heap) && id in heap && n <= |heap[id].names| && Left(heap, path) <= depth
    requires forall k :: 0 <= k < |heap[id].names| && heap[id].names[k] in heap[id].has && Get(heap[id], heap[id].names[k]).Object? ==>
      IsChild(heap, associative, id, Get(heap[id], heap[id].names[k]).id)
    requires forall b :: b in heap && IsChild(heap, associative, id, b) ==> !Truncates(heap, associative, b, path)
    ensures ConvertEntries(heap, associative, heap[id], n, path) == UnfoldEntries(heap, associative, heap[id], n, depth)
    decreases depth, 1, n
  {
    hide Closed, Left, IsChild, Convert, Unfold, Get, Truncates, AddValue;
    if n > 0 {
      GettersStayIn(heap, heap[id], 0, heap[id].names[n - 1]);
      EntriesAreUnfolded(heap, associative, id, n - 1, path, depth);
      if heap[id].names[n - 1] in heap[id].has {
        UncutIsUnfolded(heap, associative, Get(heap[id], heap[id].names[n - 1]), path, depth);
      }
    }
  }

  // On an acyclic graph the conversion is the plain unfolding to the depth of the graph.
  lemma AcyclicConversionIsUnfolding(heap: Heap, associative: bool, id: Id, depth: nat)
    requires Closed(heap) && id in heap && !ReachesCycle(heap, associative, id) && |heap.Keys| <= depth
    ensures Convert(heap, associative, Object(id), {}) == Unfold(heap, associative, Object(id), depth)
  {
    hide Closed, Truncates, ReachesCycle, Convert, Unfold;
    TruncatesIffCycle(heap, associative, id);
    assert heap.Keys - {} == heap.Keys;
    UncutIsUnfolded(heap, associative, Object(id), {}, depth);
  }

  // ---- A cut conversion is no unfolding --------------------------------------------------------------

  lemma {:induction false} ElementsAre(heap: Heap, associative: bool, o: Obj, n: nat, path: set<Id>, depth: nat, i: nat)
    requires Closed(heap) && o in heap.Values && i < n
    ensures IsIn(GetIndex(o, i), heap)
    ensures ConvertElements(heap, associative, o, n, path)[i] == Convert(heap, associative, GetIndex(o, i), path)
    ensures UnfoldElements(heap, associative, o, n, depth)[i] == Unfold(heap, associative, GetIndex(o, i), depth)
  {
    hide Closed, Left, Convert, Unfold, GetIndex;
    GettersStayIn(heap, o, i, "");
    if i < n - 1 { ElementsAre(heap, associative, o, n - 1, path, depth, i); }
  }

  // A dictionary has an entry for exactly the properties that exist and convert to a value.
  lemma {:induction false} EntriesAre(heap: Heap, associative: bool, o: Obj, n: nat, path: set<Id>, name: string)
    requires Closed(heap) && o in heap.Values && n <= |o.names|
    ensures IsIn(Get(o, name), heap)
    ensures var m, c := ConvertEntries(heap, associative, o, n, path), Convert(heap, associative, Get(o, name), path);
      && (name in m <==> name in o.has && name in o.names[..n] && c.Some?)
      && (name in m ==> c == Some(m[name]))
  {
    hide Closed, Left, Convert, Get;
    GettersStayIn(heap, o, 0, name);
    if n > 0 {
      EntriesAre(heap, associative, o, n - 1, path, name);
      assert o.names[..n] == o.names[..n - 1] + [o.names[n - 1]];
    }
  }

  lemma {:induction false} UnfoldedEntriesAre(heap: Heap, associative: bool, o: Obj, n: nat, depth: nat, name: string)
    requires Closed(heap) && o in heap.Values && n <= |o.names|
    ensures IsIn(Get(o, name), heap)
    ensures var m, c := UnfoldEntries(heap, associative, o, n, depth), Unfold(heap, associative, Get(o, name), depth);
      && (name in m <==> name in o.has && name in o.names[..n] && c.Some?)
      && (name in m ==> c == Some(m[name]))
  {
    hide Closed, Unfold, Get;
    GettersStayIn(heap, o, 0, name);
    if n > 0 {
      UnfoldedEntriesAre(heap, associative, o, n - 1, depth, name);
      assert o.names[..n] == o.names[..n - 1] + [o.names[n - 1]];
    }
  }

  // The null of a cut is no unfolding to any depth, and it shows in everything above it.
  lemma {:induction false} CutIsNotUnfolded(heap: Heap, associative: bool, id: Id, path: set<Id>, depth: nat)
    requires Closed(heap) && id in heap && Truncates(heap, associative, id, path)
    ensures Convert(heap, associative, Object(id), path) != Unfold(heap, associative, Object(id), depth)
    decreases depth
  {
    hide Closed, Left, IsArray, ConvertElements, ConvertEntries, UnfoldElements, UnfoldEntries;
    CycleNullIffOnPath(heap, associative, id, path);
    if id !in path && depth > 0 {
      LessIsLeft(heap, path, id);
      var b :| b in heap && IsChild(heap, associative, id, b) && Truncates(heap, associative, b, path + {id});
      CutIsNotUnfolded(heap, associative, b, path + {id}, depth - 1);
      CycleNullIffOnPath(heap, associative, b, path + {id});
      CutChildShows(heap, associative, id, b, path + {id}, depth - 1);
    }
  }

  lemma CutChildShows(heap: Heap, associative: bool, id: Id, b: Id, path: set<Id>, depth: nat)
    requires Closed(heap) && id in heap && b in heap && IsChild(heap, associative, id, b)
    requires Convert(heap, associative, Object(b), path) != Unfold(heap, associative, Object(b), depth)
    requires Convert(heap, associative, Object(b), path).Some?
    ensures var o := heap[id];
      if IsArray(o, associative) then
        ConvertElements(heap, associative, o, o.length, path) != UnfoldElements(heap, associative, o, o.length, depth)
      else ConvertEntries(heap, associative, o, |o.names|, path) != UnfoldEntries(heap, associative, o, |o.names|, depth)
  {
    hide Closed, Left, IsArray, Convert, Unfold, ConvertElements, ConvertEntries, UnfoldElements, UnfoldEntries, Get, GetIndex;
    var o := heap[id];
    if IsArray(o, associative) {
      var i :| 0 <= i < o.length && GetIndex(o, i) == Object(b);
      ElementsAre(heap, associative, o, o.length, path, depth, i);
    } else {
      var k :| 0 <= k < |o.names| && o.names[k] in o.has && Get(o, o.names[k]) == Object(b);
      assert o.names[k] in o.names[..|o.names|];
      EntriesAre(heap, associative, o, |o.names|, path, o.names[k]);
      UnfoldedEntriesAre(heap, associative, o, |o.names|, depth, o.names[k]);
    }
  }

  // The conversion is the plain unfolding exactly if no cycle can be reached.
  lemma UnfoldsIffAcyclic(heap: Heap, associative: bool, id: Id, depth: nat)
    requires Closed(heap) && id in heap && |heap.Keys| <= depth
    ensures Convert(heap, associative, Object(id), {}) == Unfold(heap, associative, Object(id), depth)
      <==> !ReachesCycle(heap, associative, id)
  {
    hide Closed, Truncates, ReachesCycle, Convert, Unfold;
    if ReachesCycle(heap, associative, id) {
      TruncatesIffCycle(heap, associative, id);
      CutIsNotUnfolded(heap, associative, id, {}, depth);
    } else {
      AcyclicConversionIsUnfolding(heap, associative, id, depth);
    }
  }

  // ---- How deep the result is ------------------------------------------------------------------------

  predicate NestsAtMost(cf: Cf, n: nat)
    decreases n, 0
  {
    match cf
    case CfArray(elements) => n > 0 && ElementsNest(elements, n - 1)
    case CfDictionary(entries) => n > 0 && EntriesNest(entries, n - 1)
    case _ => true
  }

  predicate Nests(cf: Option<Cf>, n: nat)
    decreases n, 1
  {
    cf.Some? ==> NestsAtMost(cf.value, n)
  }

  predicate ElementsNest(elements: seq<Option<Cf>>, n: nat)
    decreases n, 2
  {
    forall i :: 0 <= i < |elements| ==> Nests(elements[i], n)
  }

  predicate EntriesNest(entries: map<string, Cf>, n: nat)
    decreases n, 2
  {
    forall k :: k in entries ==> NestsAtMost(entries[k], n)
  }

  lemma {:induction false} DeeperIsAllowed(cf: Cf, m: nat, n: nat)
    requires NestsAtMost(cf, m) && m <= n
    ensures NestsAtMost(cf, n)
    decreases m
  {
    match cf
    case CfArray(elements) =>
      forall i | 0 <= i < |elements| ensures Nests(elements[i], n - 1) {
        assert Nests(elements[i], m - 1);
        if elements[i].Some? { DeeperIsAllowed(elements[i].value, m - 1, n - 1); }
      }
    case CfDictionary(entries) =>
      forall k | k in entries ensures NestsAtMost(entries[k], n - 1) {
        DeeperIsAllowed(entries[k], m - 1, n - 1);
      }
    case _ =>
  }

  // Arrays and dictionaries nest no deeper than there are objects off the path.
  lemma {:induction false} ResultIsShallow(heap: Heap, associative: bool, v: Value, path: set<Id>)
    requires Closed(heap) && IsIn(v, heap)
    ensures Nests(Convert(heap, associative, v, path), Left(heap, path))
    decreases Left(heap, path), 0
  {
    hide Closed, Left, IsArray, ConvertElements, ConvertEntries;
    if v.Object? && v.id !in path {
      LessIsLeft(heap, path, v.id);
      var o := heap[v.id];
      ElementsAreShallow(heap, associative, o, o.length, path + {v.id}, Left(heap, path) - 1);
      EntriesAreShallow(heap, associative, o, |o.names|, path + {v.id}, Left(heap, path) - 1);
    }
  }

  lemma {:induction false} ElementsAreShallow(heap: Heap, associative: bool, o: Obj, n: nat, path: set<Id>, depth: nat)
    requires Closed(heap) && o in heap.Values && Left(heap, path) <= depth
    ensures ElementsNest(ConvertElements(heap, associative, o, n, path), depth)
    decreases Left(heap, path), 1, n
  {
    hide Closed, Left, Convert, GetIndex;
    if n > 0 {
      GettersStayIn(heap, o, n - 1, "");
      ElementsAreShallow(heap, associative, o, n - 1, path, depth);
      ResultIsShallow(heap, associative, GetIndex(o, n - 1), path);
      var r := Convert(heap, associative, GetIndex(o, n - 1), path);
      if r.Some? { DeeperIsAllowed(r.value, Left(heap, path), depth); }
      var before := ConvertElements(heap, associative, o, n - 1, path);
      forall i | 0 <= i < n ensures Nests((before + [r])[i], depth) {
        if i < n - 1 { assert Nests(before[i], depth); }
      }
    }
  }

  lemma {:induction false} EntriesAreShallow(heap: Heap, associative: bool, o: Obj, n: nat, path: set<Id>, depth: nat)
    requires Closed(heap) && o in heap.Values && n <= |o.names| && Left(heap, path) <= depth
    ensures EntriesNest(ConvertEntries(heap, associative, o, n, path), depth)
    decreases Left(heap, path), 1, n
  {
    hide Closed, Left, Convert, Get;
    if n > 0 {
      GettersStayIn(heap, o, 0, o.names[n - 1]);
      EntriesAreShallow(heap, associative, o, n - 1, path, depth);
      if o.names[n - 1] in o.has {
        ResultIsShallow(heap, associative, Get(o, o.names[n - 1]), path);
        var r := Convert(heap, associative, Get(o, o.names[n - 1]), path);
        if r.Some? { DeeperIsAllowed(r.value, Left(heap, path), depth); }
        AddNests(ConvertEntries(heap, associative, o, n - 1, path), o.names[n - 1], r, depth);
      }
    }
  }

  lemma AddNests(m: map<string, Cf>, name: string, r: Option<Cf>, depth: nat)
    requires EntriesNest(m, depth) && Nests(r, depth)
    ensures EntriesNest(AddValue(m, name, r), depth)
  {
    forall k | k in AddValue(m, name, r) ensures NestsAtMost(AddValue(m, name, r)[k], depth) {
      if k in m { assert NestsAtMost(m[k], depth); }
    }
  }
}
