/** The scanner's methods, as loops over an index. */
module JsonDocument {
  import opened JsonGrammar
  import opened JsonScan
  import opened JsonRescan
  import opened Options

  method Ws(data: string, start: nat) returns (i: nat)
    requires start <= |data|
    ensures i == SkipSpace(data, start)
    ensures start <= i <= |data| && forall k :: start <= k < i ==> data[k] in " \r\n\t"
    ensures i < |data| ==> data[i] !in " \r\n\t"
  {
    i := start;
    while i < |data| && IsSpace(data[i])
      invariant start <= i <= |data| && SkipSpace(data, i) == SkipSpace(data, start)
      invariant forall k :: start <= k < i ==> data[k] in " \r\n\t"
    {
      i := i + 1;
    }
  }

  /** Jumps from one quote, backslash or control character to the next. */
  method StringEnd(data: string, start: nat) returns (r: Option<nat>)
    requires start <= |data|
    ensures r == ScanText(data, start)
  {
    if start == |data| || data[start] != '\"' {
      return None;
    }
    var i := start + 1;
    while i < |data|
      invariant start < i <= |data| && ScanBody(data, i) == ScanBody(data, start + 1)
    {
      while i < |data| && data[i] != '\"' && data[i] != '\\' && data[i] >= ' '
        invariant start < i <= |data| && ScanBody(data, i) == ScanBody(data, start + 1)
      {
        i := i + 1;
      }
      if i == |data| {
        return None;
      }
      if data[i] == '\"' {
        return Some(i + 1);
      }
      if data[i] != '\\' || i + 1 == |data| {
        return None;
      }
      if data[i + 1] == 'u' {
        if i + 6 > |data| || !AllHex(data[i + 2..i + 6]) {
          return None;
        }
        i := i + 6;
      } else {
        if data[i + 1] !in "\\\"/bfnrt" {
          return None;
        }
        i := i + 2;
      }
    }
    return None;
  }

  method Value(data: string, start: nat, depth: nat) returns (r: Option<nat>)
    requires start <= |data|
    ensures r == ScanValue(data, start, depth)
    decreases |data| - start, 0
  {
    if depth > MAX_DEPTH || start == |data| {
      return None;
    }
    if data[start] == '\"' {
      r := StringEnd(data, start);
      return;
    }
    if data[start] == '{' || data[start] == '[' {
      var named := data[start] == '{';
      var i := Ws(data, start + 1);
      if i == |data| {
        return None;
      }
      if data[i] == Close(named) {
        return Some(i + 1);
      }
      r := Entries(data, i, depth, named);
      return;
    }
    return ScanPrimitive(data, start);
  }

  function EndOf(frame: Option<Frame>): Option<nat> {
    if frame.Some? then Some(frame.value.end) else None
  }

  /** Past a member's name and colon; elements have neither. */
  method Name(data: string, start: nat, named: bool, seen: set<seq<nat>>) returns (i: Option<nat>, name: seq<nat>)
    requires start <= |data|
    ensures i == ScanName(data, start, named, seen)
    ensures i.Some? ==> name == NameAt(data, start, named)
  {
    name := [];
    if !named {
      return Some(start), name;
    }
    var text := StringEnd(data, start);
    if text.None? {
      return None, name;
    }
    name := NameOf(data[start..text.value]);
    if name in seen {
      return None, name;
    }
    var k := Ws(data, text.value);
    if k == |data| || data[k] != ':' {
      return None, name;
    }
    k := Ws(data, k + 1);
    return Some(k), name;
  }

  /** One turn of the loop over members or elements. */
  method NextEntry(data: string, start: nat, depth: nat, named: bool, seen: set<seq<nat>>) returns (t: Turn)
    requires start <= |data|
    ensures t == ScanEntry(data, start, depth, named, seen)
    decreases |data| - start, 1
  {
    var v, name := Name(data, start, named, seen);
    if v.None? {
      return Refuse;
    }
    var end := Value(data, v.value, depth + 1);
    if end.None? {
      return Refuse;
    }
    t := Separator(data, Child(name, v.value, end.value), named);
  }

  method Separator(data: string, child: Child, named: bool) returns (t: Turn)
    requires child.end <= |data|
    ensures t == AfterValue(data, child, named)
  {
    var i := Ws(data, child.end);
    if i == |data| {
      return Refuse;
    }
    if data[i] == Close(named) {
      return Last(child, i + 1);
    }
    if data[i] != ',' {
      return Refuse;
    }
    i := Ws(data, i + 1);
    return More(child, i);
  }

  /** The loop of `Value` over members or elements. */
  method Entries(data: string, start: nat, depth: nat, named: bool) returns (r: Option<nat>)
    requires start <= |data|
    ensures r == EndOf(ScanEntries(data, start, depth, named, {}))
    decreases |data| - start, 2
  {
    var i := start;
    var seen: set<seq<nat>> := {};
    while true
      invariant start <= i <= |data|
      invariant EndOf(ScanEntries(data, i, depth, named, seen)) == EndOf(ScanEntries(data, start, depth, named, {}))
      decreases |data| - i
    {
      var t := NextEntry(data, i, depth, named, seen);
      match t {
        case Refuse => return None;
        case Last(_, end) => return Some(end);
        case More(child, next) => i, seen := next, seen + {child.name};
      }
    }
  }

  /** Accepts a whole text or refuses it. */
  method Load(data: string) returns (end: Option<nat>)
    ensures end.Some? <==> Accepts(data)
    ensures end.Some? ==> end == ScanValue(data, SkipSpace(data, 0), 0)
  {
    var i := Ws(data, 0);
    end := Value(data, i, 0);
    if end.Some? {
      i := Ws(data, end.value);
      if i != |data| {
        return None;
      }
    }
  }

  /** One child of a span, found without the bounds checks and the depth of the first pass. */
  method OneChild(data: string, start: nat, named: bool, ghost seen: set<seq<nat>>)
    returns (child: Child, i: nat)
    requires start < |data| && !ScanEntry(data, start, 0, named, seen).Refuse?
    ensures child == ScanEntry(data, start, 0, named, seen).child
    ensures i == SkipSpace(data, child.end) && i < |data|
  {
    i := start;
    var name := [];
    if named {
      var text := StringEnd(data, i);
      name := NameOf(data[i..text.value]);
      assert name !in seen;
      i := Ws(data, text.value);
      assert data[i] == ':';
      i := Ws(data, i + 1);
    }
    ShallowerAgrees(data, i, 1, 0);
    var end := Value(data, i, 0);
    child := Child(name, i, end.value);
    i := Ws(data, end.value);
  }

  /** The entries from `i` on complete `children` to those of `frame`. */
  ghost predicate ContinuesAs(
    data: string, i: nat, named: bool, seen: set<seq<nat>>, frame: Frame, children: seq<Child>)
  {
    && i <= |data| && ScanEntries(data, i, 0, named, seen).Some?
    && var rest := ScanEntries(data, i, 0, named, seen).value;
       rest.end == frame.end && children + rest.children == frame.children
  }

  lemma {:induction false} StepContinues(
    data: string, i: nat, named: bool, seen: set<seq<nat>>, frame: Frame, children: seq<Child>)
    requires ContinuesAs(data, i, named, seen, frame, children)
    ensures var t := ScanEntry(data, i, 0, named, seen);
            && !t.Refuse?
            && (t.Last? ==> children + [t.child] == frame.children && t.end == frame.end)
            && (t.More? ==> ContinuesAs(data, t.next, named, seen + {t.child.name}, frame, children + [t.child]))
  {
    var t := ScanEntry(data, i, 0, named, seen);
    if t.More? {
      MoreContinues(data, i, named, seen, frame, children);
    } else {
      assert ScanEntries(data, i, 0, named, seen).value.children == [t.child];
    }
  }

  lemma {:induction false} MoreContinues(
    data: string, i: nat, named: bool, seen: set<seq<nat>>, frame: Frame, children: seq<Child>)
    requires ContinuesAs(data, i, named, seen, frame, children) && ScanEntry(data, i, 0, named, seen).More?
    ensures var t := ScanEntry(data, i, 0, named, seen);
            ContinuesAs(data, t.next, named, seen + {t.child.name}, frame, children + [t.child])
  {
    var t := ScanEntry(data, i, 0, named, seen);
    var rest := ScanEntries(data, t.next, 0, named, seen + {t.child.name}).value;
    assert ScanEntries(data, i, 0, named, seen).value == Frame(rest.end, [t.child] + rest.children);
    assert children + ([t.child] + rest.children) == children + [t.child] + rest.children;
  }

  lemma TurnSeparator(data: string, i: nat, depth: nat, named: bool, seen: set<seq<nat>>)
    requires i <= |data| && !ScanEntry(data, i, depth, named, seen).Refuse?
    ensures var t := ScanEntry(data, i, depth, named, seen);
            var k := SkipSpace(data, t.child.end);
            && k < |data|
            && (t.Last? ==> data[k] == Close(named) && t.end == k + 1)
            && (t.More? ==> data[k] == ',' && t.next == SkipSpace(data, k + 1))
  {
  }

  /** The children of an object or array span of the first pass, found at depth `depth` then and
      rescanned from the top now. No index is out of range and nothing is refused. */
  method Children(data: string, start: nat, end: nat, ghost depth: nat) returns (children: seq<Child>)
    requires start < |data| && (data[start] == '{' || data[start] == '[')
    requires ScanValue(data, start, depth) == Some(end)
    ensures ScanContainer(data, start, depth) == Some(Frame(end, children))
  {
    var named := data[start] == '{';
    children := [];
    var i := Ws(data, start + 1);
    if data[i] != Close(named) {
      ghost var frame := ScanContainer(data, start, depth).value;
      ShallowerEntriesAgree(data, i, depth, 0, named, {});
      assert children + frame.children == frame.children;
      children := RemainingChildren(data, i, named, frame);
    }
  }

  method RemainingChildren(data: string, start: nat, named: bool, ghost frame: Frame) returns (children: seq<Child>)
    requires ContinuesAs(data, start, named, {}, frame, [])
    ensures children == frame.children
  {
    children := [];
    var i := start;
    ghost var seen: set<seq<nat>> := {};
    while true
      invariant start <= i <= |data| && ContinuesAs(data, i, named, seen, frame, children)
      decreases |data| - i
    {
      StepContinues(data, i, named, seen, frame, children);
      TurnSeparator(data, i, 0, named, seen);
      var child;
      child, i := OneChild(data, i, named, seen);
      children := children + [child];
      if data[i] == Close(named) {
        assert i + 1 == frame.end;
        return;
      }
      assert data[i] == ',';
      seen := seen + {child.name};
      i := Ws(data, i + 1);
    }
  }
}
