/** The framing scanner: from a position in the text to the end of the value that starts there,
    together with the spans of its children. */
module JsonScan {
  import opened JsonGrammar
  import opened Options

  /** First position at or after `i` that is not a space. */
  function SkipSpace(data: string, i: nat): (r: nat)
    requires i <= |data|
    ensures i <= r <= |data|
    decreases |data| - i
  {
    if i < |data| && IsSpace(data[i]) then SkipSpace(data, i + 1) else i
  }

  /** From just after an opening quote to just after the closing one. */
  function ScanBody(data: string, i: nat): (r: Option<nat>)
    requires i <= |data|
    ensures r.Some? ==> i < r.value <= |data|
    decreases |data| - i
  {
    if i == |data| then None
    else if data[i] == '\"' then Some(i + 1)
    else if data[i] == '\\' then
      if i + 1 == |data| then None
      else if data[i + 1] == 'u' then
        if i + 6 <= |data| && AllHex(data[i + 2..i + 6]) then ScanBody(data, i + 6) else None
      else if data[i + 1] in "\\\"/bfnrt" then ScanBody(data, i + 2)
      else None
    else if data[i] < ' ' then None
    else ScanBody(data, i + 1)
  }

  function ScanText(data: string, i: nat): (r: Option<nat>)
    requires i <= |data|
    ensures r.Some? ==> i < r.value <= |data|
  {
    if i < |data| && data[i] == '\"' then ScanBody(data, i + 1) else None
  }

  function SkipDigits(data: string, i: nat): (r: nat)
    requires i <= |data|
    ensures i <= r <= |data|
    decreases |data| - i
  {
    if i < |data| && IsDigit(data[i]) then SkipDigits(data, i + 1) else i
  }

  function ScanFraction(data: string, i: nat): (r: nat)
    requires i <= |data|
    ensures i <= r <= |data|
  {
    if i + 1 < |data| && data[i] == '.' && IsDigit(data[i + 1]) then SkipDigits(data, i + 1) else i
  }

  function ScanExponent(data: string, i: nat): (r: nat)
    requires i <= |data|
    ensures i <= r <= |data|
  {
    if i + 1 < |data| && (data[i] == 'e' || data[i] == 'E') then
      if IsDigit(data[i + 1]) then SkipDigits(data, i + 1)
      else if i + 2 < |data| && (data[i + 1] == '+' || data[i + 1] == '-') && IsDigit(data[i + 2])
      then SkipDigits(data, i + 2)
      else i
    else i
  }

  function ScanInteger(data: string, i: nat): (r: Option<nat>)
    requires i <= |data|
    ensures r.Some? ==> i < r.value <= |data|
  {
    if i == |data| || !IsDigit(data[i]) then None
    else if data[i] == '0' then Some(i + 1)
    else Some(SkipDigits(data, i))
  }

  function ScanNumber(data: string, i: nat): (r: Option<nat>)
    requires i <= |data|
    ensures r.Some? ==> i < r.value <= |data|
  {
    var start := if i < |data| && data[i] == '-' then i + 1 else i;
    match ScanInteger(data, start)
    case None => None
    case Some(k) => Some(ScanExponent(data, ScanFraction(data, k)))
  }

  /** `s` stands at position `i`. */
  predicate At(data: string, i: nat, s: string) {
    i + |s| <= |data| && data[i..i + |s|] == s
  }

  function ScanPrimitive(data: string, i: nat): (r: Option<nat>)
    requires i <= |data|
    ensures r.Some? ==> i < r.value <= |data|
  {
    if At(data, i, "null") then Some(i + 4)
    else if At(data, i, "true") then Some(i + 4)
    else if At(data, i, "false") then Some(i + 5)
    else ScanNumber(data, i)
  }

  /** A child's decoded name, empty for elements, and its span. */
  datatype Child = Child(name: seq<nat>, start: nat, end: nat)

  /** Where a container ends and what it holds. */
  datatype Frame = Frame(end: nat, children: seq<Child>)

  function ScanValue(data: string, i: nat, depth: nat): (r: Option<nat>)
    requires i <= |data|
    ensures r.Some? ==> i < r.value <= |data|
    decreases |data| - i, 0
  {
    if depth > MAX_DEPTH || i == |data| then None
    else if data[i] == '\"' then ScanText(data, i)
    else if data[i] == '{' || data[i] == '[' then
      match ScanContainer(data, i, depth)
      case None => None
      case Some(frame) => Some(frame.end)
    else ScanPrimitive(data, i)
  }

  function ScanContainer(data: string, i: nat, depth: nat): (r: Option<Frame>)
    requires i < |data| && (data[i] == '{' || data[i] == '[')
    ensures r.Some? ==> i < r.value.end <= |data|
    decreases |data| - i, 0, 0
  {
    var named := data[i] == '{';
    var j := SkipSpace(data, i + 1);
    if j == |data| then None
    else if data[j] == Close(named) then Some(Frame(j + 1, []))
    else ScanEntries(data, j, depth, named, {})
  }

  /** What one entry leads to: nothing legal, the end of the container, or the next entry. */
  datatype Turn = Refuse | Last(child: Child, end: nat) | More(child: Child, next: nat)

  /** The entry at `i`, from its first character. */
  function ScanEntry(data: string, i: nat, depth: nat, named: bool, seen: set<seq<nat>>): (t: Turn)
    requires i <= |data|
    ensures t.Last? ==> i <= t.child.start < t.child.end < t.end <= |data|
    ensures t.More? ==> i <= t.child.start < t.child.end < t.next <= |data|
    decreases |data| - i, 1
  {
    match ScanName(data, i, named, seen)
    case None => Refuse
    case Some(v) =>
      match ScanValue(data, v, depth + 1)
      case None => Refuse
      case Some(end) => AfterValue(data, Child(NameAt(data, i, named), v, end), named)
  }

  /** After a value comes the closing bracket, or a comma and another entry. */
  function AfterValue(data: string, child: Child, named: bool): (t: Turn)
    requires child.end <= |data|
    ensures t.Last? ==> t.child == child && child.end < t.end <= |data|
    ensures t.More? ==> t.child == child && child.end < t.next <= |data|
  {
    var k := SkipSpace(data, child.end);
    if k == |data| then Refuse
    else if data[k] == Close(named) then Last(child, k + 1)
    else if data[k] == ',' then More(child, SkipSpace(data, k + 1))
    else Refuse
  }

  /** The entries of a container from the first character of one to its closing bracket. */
  function ScanEntries(data: string, i: nat, depth: nat, named: bool, seen: set<seq<nat>>): (r: Option<Frame>)
    requires i <= |data|
    ensures r.Some? ==> i < r.value.end <= |data|
    decreases |data| - i, 2
  {
    match ScanEntry(data, i, depth, named, seen)
    case Refuse => None
    case Last(child, end) => Some(Frame(end, [child]))
    case More(child, next) =>
      match ScanEntries(data, next, depth, named, seen + {child.name})
      case None => None
      case Some(rest) => Some(Frame(rest.end, [child] + rest.children))
  }

  /** The decoded name of the entry at `i`. */
  function NameAt(data: string, i: nat, named: bool): seq<nat>
    requires i <= |data|
  {
    if !named || ScanText(data, i).None? then [] else NameOf(data[i..ScanText(data, i).value])
  }

  /** Past the name and the colon of a member, to its value; an element's value starts at once. */
  function ScanName(data: string, i: nat, named: bool, seen: set<seq<nat>>): (r: Option<nat>)
    requires i <= |data|
    ensures r.Some? ==> i <= r.value <= |data|
  {
    if !named then Some(i)
    else
      match ScanText(data, i)
      case None => None
      case Some(end) =>
        var k := SkipSpace(data, end);
        if NameOf(data[i..end]) in seen || k == |data| || data[k] != ':' then None
        else Some(SkipSpace(data, k + 1))
  }

  /** The whole document: one value and nothing but space around it. */
  predicate Accepts(data: string) {
    var end := ScanValue(data, SkipSpace(data, 0), 0);
    end.Some? && SkipSpace(data, end.value) == |data|
  }
}
