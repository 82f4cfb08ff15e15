/** The laptop comparison page: the two forms, their validation, the
    defaults seeded from the option lists, the price comparison, and one
    prediction round (submit, then the outcome of the two requests). */
module CompareForm {
  import opened Wrappers
  import opened Text
  import opened JsNumbers

  // ---------------------------------------------------------------------
  // Forms
  // ---------------------------------------------------------------------

  datatype Field =
    | Company | Product | TypeName | Inches | ScreenResolution | Cpu
    | Ram | Memory | Gpu | OpSys | Weight

  /** Every field holds the text of the selected option. */
  datatype LaptopForm = LaptopForm(
    company: string, product: string, typeName: string, inches: string,
    screenResolution: string, cpu: string, ram: string, memory: string,
    gpu: string, opSys: string, weight: string)

  const EmptyLaptop := LaptopForm("", "", "", "", "", "", "", "", "", "", "")

  function Get(f: LaptopForm, k: Field): string {
    match k
    case Company => f.company
    case Product => f.product
    case TypeName => f.typeName
    case Inches => f.inches
    case ScreenResolution => f.screenResolution
    case Cpu => f.cpu
    case Ram => f.ram
    case Memory => f.memory
    case Gpu => f.gpu
    case OpSys => f.opSys
    case Weight => f.weight
  }

  /** `{ ...prev, [name]: value }`. */
  function Set(f: LaptopForm, k: Field, v: string): (g: LaptopForm)
    ensures Get(g, k) == v
    ensures forall k' :: k' != k ==> Get(g, k') == Get(f, k')
  {
    match k
    case Company => f.(company := v)
    case Product => f.(product := v)
    case TypeName => f.(typeName := v)
    case Inches => f.(inches := v)
    case ScreenResolution => f.(screenResolution := v)
    case Cpu => f.(cpu := v)
    case Ram => f.(ram := v)
    case Memory => f.(memory := v)
    case Gpu => f.(gpu := v)
    case OpSys => f.(opSys := v)
    case Weight => f.(weight := v)
  }

  /** A form is determined by its fields. */
  lemma FormExtensional(f: LaptopForm, g: LaptopForm)
    requires forall k :: Get(f, k) == Get(g, k)
    ensures f == g
  {
    assert Get(f, Company) == Get(g, Company) && Get(f, Product) == Get(g, Product);
    assert Get(f, TypeName) == Get(g, TypeName) && Get(f, Inches) == Get(g, Inches);
    assert Get(f, ScreenResolution) == Get(g, ScreenResolution) && Get(f, Cpu) == Get(g, Cpu);
    assert Get(f, Ram) == Get(g, Ram) && Get(f, Memory) == Get(g, Memory);
    assert Get(f, Gpu) == Get(g, Gpu) && Get(f, OpSys) == Get(g, OpSys);
    assert Get(f, Weight) == Get(g, Weight);
  }

  /** Writing back what a field already holds changes nothing, and a second
      write to the same field overrides the first. */
  lemma SetLaws(f: LaptopForm, k: Field, v: string, w: string)
    ensures Set(f, k, Get(f, k)) == f
    ensures Set(Set(f, k, v), k, w) == Set(f, k, w)
  {
    FormExtensional(Set(f, k, Get(f, k)), f);
    FormExtensional(Set(Set(f, k, v), k, w), Set(f, k, w));
  }

  // ---------------------------------------------------------------------
  // Validation
  // ---------------------------------------------------------------------

  const MsgIdentity := "Brand, Product, dan Tipe harus diisi"
  const MsgInches := "Ukuran layar tidak valid"
  const MsgRam := "RAM tidak valid"
  const MsgWeight := "Berat tidak valid"

  /** The rules of `validateForm`, in the order they are checked. */
  datatype Rule = IdentityGiven | InchesNumeric | RamInteger | WeightNumeric

  const Rules := [IdentityGiven, InchesNumeric, RamInteger, WeightNumeric]

  /** An empty string is falsy; the numeric rules use the JavaScript
      numeric-prefix readers. */
  predicate Passes(r: Rule, f: LaptopForm) {
    match r
    case IdentityGiven => f.company != "" && f.product != "" && f.typeName != ""
    case InchesNumeric => f.inches != "" && ParseFloatOk(f.inches)
    case RamInteger => f.ram != "" && ParseIntValue(f.ram).Some?
    case WeightNumeric => f.weight != "" && ParseFloatOk(f.weight)
  }

  function Message(r: Rule): string {
    match r
    case IdentityGiven => MsgIdentity
    case InchesNumeric => MsgInches
    case RamInteger => MsgRam
    case WeightNumeric => MsgWeight
  }

  /** `validateForm`: the message of the first rule in `Rules` that fails,
      `None` when every rule passes. */
  function ValidateForm(f: LaptopForm): (e: Option<string>)
    ensures e.None? <==> forall i :: 0 <= i < |Rules| ==> Passes(Rules[i], f)
    ensures forall i :: (0 <= i < |Rules| && !Passes(Rules[i], f) &&
      (forall j :: 0 <= j < i ==> Passes(Rules[j], f))) ==> e == Some(Message(Rules[i]))
    ensures e.Some? ==> e.value != ""
  {
    if !Passes(IdentityGiven, f) then
      assert !Passes(Rules[0], f);
      Some(MsgIdentity)
    else if !Passes(InchesNumeric, f) then
      assert !Passes(Rules[1], f);
      Some(MsgInches)
    else if !Passes(RamInteger, f) then
      assert !Passes(Rules[2], f);
      Some(MsgRam)
    else if !Passes(WeightNumeric, f) then
      assert !Passes(Rules[3], f);
      Some(MsgWeight)
    else None
  }

  /** The messages are distinct and non-empty, so a message names the
      failing rule and is never falsy. */
  lemma MessagesIdentifyRules(r: Rule, r': Rule)
    ensures Message(r) != ""
    ensures Message(r) == Message(r') ==> r == r'
  {
  }

  /** A numeric prefix is enough: `String(n)` followed by any non-digit
      text passes the RAM rule. */
  lemma RamRuleAcceptsPrefix(f: LaptopForm, n: int, rest: string)
    requires f.ram == IntToString(n) + rest
    requires |rest| == 0 || !IsDigit(rest[0])
    ensures Passes(RamInteger, f)
  {
    ParseIntOfPrefix(n, rest);
  }

  // ---------------------------------------------------------------------
  // Default forms from the option lists
  // ---------------------------------------------------------------------

  /** The option lists as the page receives them. */
  datatype Options = Options(
    companies: seq<string>, products: seq<string>, typeNames: seq<string>,
    screenResolutions: seq<string>, cpus: seq<string>, ramsGb: seq<int>,
    memories: seq<string>, gpus: seq<string>, opSys: seq<string>,
    inches: seq<real>, weights: seq<real>)

  /** `xs[i]`, with `None` for `undefined` (any index outside the list,
      negative ones included). */
  function At<T>(xs: seq<T>, i: int): (r: Option<T>)
    ensures r.Some? <==> 0 <= i < |xs|
    ensures r.Some? ==> r.value == xs[i]
  {
    if 0 <= i < |xs| then Some(xs[i]) else None
  }

  /** `Math.min(1, n - 1)`: the index of the second element, of the only
      one in a one-element list, and -1 for an empty list. */
  function SecondIndex(n: nat): (i: int)
    ensures n >= 2 ==> i == 1
    ensures n == 1 ==> i == 0
    ensures n == 0 ==> i == -1
  {
    if 1 < n - 1 then 1 else n - 1
  }

  predicate Truthy<T>(o: Option<T>, truthy: T -> bool) {
    o.Some? && truthy(o.value)
  }

  /** `c0 || c1 || ...`: the first truthy candidate, `None` when all are
      falsy (the caller supplies the final `""`). */
  function FirstTruthy<T>(cands: seq<Option<T>>, truthy: T -> bool): (r: Option<T>)
    ensures r.Some? ==> truthy(r.value)
    ensures r.Some? ==> exists i :: (0 <= i < |cands| && cands[i] == r
      && forall j :: 0 <= j < i ==> !Truthy(cands[j], truthy))
    ensures r.None? <==> forall i :: 0 <= i < |cands| ==> !Truthy(cands[i], truthy)
    decreases |cands|
  {
    if |cands| == 0 then None
    else if Truthy(cands[0], truthy) then cands[0]
    else
      var r := FirstTruthy(cands[1..], truthy);
      assert forall i :: 1 <= i < |cands| ==> cands[i] == cands[1..][i - 1];
      r
  }

  /** Laptop 1's choice from a list: element 0 when it is truthy. */
  function PickA<T>(xs: seq<T>, truthy: T -> bool): (r: Option<T>)
    ensures r.Some? <==> |xs| > 0 && truthy(xs[0])
    ensures r.Some? ==> r.value == xs[0]
  {
    FirstTruthy([At(xs, 0)], truthy)
  }

  /** Laptop 2's choice: the element at `min(1, len - 1)`, falling back to
      element 0. */
  function PickB<T>(xs: seq<T>, truthy: T -> bool): (r: Option<T>)
    ensures |xs| <= 1 ==> r == PickA(xs, truthy)
    ensures |xs| >= 2 ==> r == (if truthy(xs[1]) then Some(xs[1]) else PickA(xs, truthy))
    ensures r.Some? ==> r.value in xs && truthy(r.value)
  {
    var cands := [At(xs, SecondIndex(|xs|)), At(xs, 0)];
    var r := FirstTruthy(cands, truthy);
    assert |xs| == 1 ==> cands[0] == cands[1];
    r
  }

  predicate NonEmpty(s: string) {
    s != ""
  }

  predicate NonZero(n: int) {
    n != 0
  }

  predicate NonZeroReal(x: real) {
    x != 0.0
  }

  /** `String(x || "")` for a string, an integer, and a float whose
      rendering `showReal` stands for. */
  function ShowText(o: Option<string>): string {
    o.GetOr("")
  }

  function ShowInt(o: Option<int>): string {
    match o
    case None => ""
    case Some(n) => IntToString(n)
  }

  function ShowReal(o: Option<real>, showReal: real -> string): string {
    match o
    case None => ""
    case Some(x) => showReal(x)
  }

  /** Laptop 1's default for field `k`. `Company` takes element 0 without
      a fallback, which the non-empty company list makes safe. */
  function DefaultA(o: Options, k: Field, showReal: real -> string): (d: string)
    requires |o.companies| > 0
    ensures k == Company ==> d == o.companies[0]
    ensures ListLength(o, k) == 0 ==> d == ""
    ensures k !in {Inches, Ram, Weight} ==> d == "" || d in TextList(o, k)
    ensures k == Ram ==> d == "" || exists v :: v in o.ramsGb && v != 0 && d == IntToString(v)
    ensures k == Inches ==> d == "" || exists x :: x in o.inches && x != 0.0 && d == showReal(x)
    ensures k == Weight ==> d == "" || exists x :: x in o.weights && x != 0.0 && d == showReal(x)
  {
    match k
    case Company => o.companies[0]
    case Product => ShowText(PickA(o.products, NonEmpty))
    case TypeName => ShowText(PickA(o.typeNames, NonEmpty))
    case Inches => ShowReal(PickA(o.inches, NonZeroReal), showReal)
    case ScreenResolution => ShowText(PickA(o.screenResolutions, NonEmpty))
    case Cpu => ShowText(PickA(o.cpus, NonEmpty))
    case Ram => ShowInt(PickA(o.ramsGb, NonZero))
    case Memory => ShowText(PickA(o.memories, NonEmpty))
    case Gpu => ShowText(PickA(o.gpus, NonEmpty))
    case OpSys => ShowText(PickA(o.opSys, NonEmpty))
    case Weight => ShowReal(PickA(o.weights, NonZeroReal), showReal)
  }

  /** Laptop 2's default for field `k`. `Company` takes the element at
      `min(1, len - 1)` without a fallback. */
  function DefaultB(o: Options, k: Field, showReal: real -> string): (d: string)
    requires |o.companies| > 0
    ensures k == Company ==> d in o.companies && (|o.companies| >= 2 ==> d == o.companies[1])
    ensures ListLength(o, k) <= 1 ==> d == DefaultA(o, k, showReal)
    ensures k !in {Inches, Ram, Weight} ==> d == "" || d in TextList(o, k)
    ensures k == Ram ==> d == "" || exists v :: v in o.ramsGb && v != 0 && d == IntToString(v)
    ensures k == Inches ==> d == "" || exists x :: x in o.inches && x != 0.0 && d == showReal(x)
    ensures k == Weight ==> d == "" || exists x :: x in o.weights && x != 0.0 && d == showReal(x)
  {
    match k
    case Company => o.companies[SecondIndex(|o.companies|)]
    case Product => ShowText(PickB(o.products, NonEmpty))
    case TypeName => ShowText(PickB(o.typeNames, NonEmpty))
    case Inches => ShowReal(PickB(o.inches, NonZeroReal), showReal)
    case ScreenResolution => ShowText(PickB(o.screenResolutions, NonEmpty))
    case Cpu => ShowText(PickB(o.cpus, NonEmpty))
    case Ram => ShowInt(PickB(o.ramsGb, NonZero))
    case Memory => ShowText(PickB(o.memories, NonEmpty))
    case Gpu => ShowText(PickB(o.gpus, NonEmpty))
    case OpSys => ShowText(PickB(o.opSys, NonEmpty))
    case Weight => ShowReal(PickB(o.weights, NonZeroReal), showReal)
  }

  /** The form whose field `k` holds `value(k)`. */
  function FormOf(value: Field -> string): (f: LaptopForm)
    ensures forall k :: Get(f, k) == value(k)
  {
    LaptopForm(value(Company), value(Product), value(TypeName), value(Inches),
      value(ScreenResolution), value(Cpu), value(Ram), value(Memory),
      value(Gpu), value(OpSys), value(Weight))
  }

  /** The defaults of Laptop 1. */
  function SeedA(o: Options, showReal: real -> string): (f: LaptopForm)
    requires |o.companies| > 0
    ensures forall k :: Get(f, k) == DefaultA(o, k, showReal)
  {
    FormOf(k => DefaultA(o, k, showReal))
  }

  /** The defaults of Laptop 2. */
  function SeedB(o: Options, showReal: real -> string): (f: LaptopForm)
    requires |o.companies| > 0
    ensures forall k :: Get(f, k) == DefaultB(o, k, showReal)
  {
    FormOf(k => DefaultB(o, k, showReal))
  }

  /** Both defaults, or `None` when there are no companies and the forms
      are left as they are. */
  function Seed(o: Options, showReal: real -> string): (r: Option<(LaptopForm, LaptopForm)>)
    ensures r.Some? <==> |o.companies| > 0
  {
    if |o.companies| > 0 then Some((SeedA(o, showReal), SeedB(o, showReal))) else None
  }

  /** The number of options behind a field. */
  function ListLength(o: Options, k: Field): nat {
    match k
    case Company => |o.companies|
    case Product => |o.products|
    case TypeName => |o.typeNames|
    case Inches => |o.inches|
    case ScreenResolution => |o.screenResolutions|
    case Cpu => |o.cpus|
    case Ram => |o.ramsGb|
    case Memory => |o.memories|
    case Gpu => |o.gpus|
    case OpSys => |o.opSys|
    case Weight => |o.weights|
  }

  /** With two or more options, Laptop 2 takes the second one when it is
      truthy, and Laptop 1's value otherwise. */
  lemma SeedSecondChoice(o: Options, showReal: real -> string)
    requires |o.companies| > 0
    ensures |o.companies| >= 2 ==> SeedB(o, showReal).company == o.companies[1]
    ensures |o.products| >= 2 ==> (SeedB(o, showReal).product ==
      if o.products[1] != "" then o.products[1] else SeedA(o, showReal).product)
    ensures |o.ramsGb| >= 2 ==> (SeedB(o, showReal).ram ==
      if o.ramsGb[1] != 0 then IntToString(o.ramsGb[1]) else SeedA(o, showReal).ram)
  {
    var a := SeedA(o, showReal);
    var b := SeedB(o, showReal);
    assert b.company == Get(b, Company);
    assert a.product == Get(a, Product) && b.product == Get(b, Product);
    assert a.ram == Get(a, Ram) && b.ram == Get(b, Ram);
  }

  /** The text list behind a text field. */
  function TextList(o: Options, k: Field): seq<string>
    requires k !in {Inches, Ram, Weight}
  {
    match k
    case Company => o.companies
    case Product => o.products
    case TypeName => o.typeNames
    case ScreenResolution => o.screenResolutions
    case Cpu => o.cpus
    case Memory => o.memories
    case Gpu => o.gpus
    case OpSys => o.opSys
  }

  // ---------------------------------------------------------------------
  // Price comparison
  // ---------------------------------------------------------------------

  const Laptop1 := "Laptop 1"
  const Laptop2 := "Laptop 2"

  /** `priceDiff`: the absolute difference once both prices are known. */
  function PriceDiff(a: Option<real>, b: Option<real>): (d: Option<real>)
    ensures d.Some? <==> a.Some? && b.Some?
    ensures d.Some? ==> d.value >= 0.0
  {
    if a.Some? && b.Some? then
      Some(if a.value - b.value >= 0.0 then a.value - b.value else b.value - a.value)
    else None
  }

  /** `cheaperLaptop`: Laptop 1 only when strictly cheaper, so a tie goes
      to Laptop 2. */
  function Cheaper(a: Option<real>, b: Option<real>): (c: Option<string>)
    ensures c.Some? <==> a.Some? && b.Some?
    ensures c.Some? ==> c.value == Laptop1 || c.value == Laptop2
  {
    if a.Some? && b.Some? then
      Some(if a.value < b.value then Laptop1 else Laptop2)
    else None
  }

  /** The cheaper price plus the difference is the other price, the
      difference is symmetric, and Laptop 1 wins exactly when strictly
      cheaper. */
  lemma PriceComparison(a: real, b: real)
    ensures PriceDiff(Some(a), Some(b)) == PriceDiff(Some(b), Some(a))
    ensures Cheaper(Some(a), Some(b)) == Some(Laptop1) <==> a < b
    ensures Cheaper(Some(a), Some(b)) == Some(Laptop1) ==> a + PriceDiff(Some(a), Some(b)).value == b
    ensures Cheaper(Some(a), Some(b)) == Some(Laptop2) ==> b + PriceDiff(Some(a), Some(b)).value == a
    ensures a == b ==> Cheaper(Some(a), Some(b)) == Some(Laptop2) && PriceDiff(Some(a), Some(b)) == Some(0.0)
  {
  }

  // ---------------------------------------------------------------------
  // One prediction round
  // ---------------------------------------------------------------------

  /** The page state the prediction touches. */
  datatype Page = Page(
    options: Option<Options>, laptopA: LaptopForm, laptopB: LaptopForm,
    priceA: Option<real>, priceB: Option<real>,
    loading: bool, loadingOptions: bool, error: Option<string>)

  datatype Side = SideA | SideB

  /** `handleChange`: one field of one form takes the selected value. */
  function HandleChange(p: Page, side: Side, k: Field, v: string): (q: Page)
    ensures Get(if side == SideA then q.laptopA else q.laptopB, k) == v
    ensures forall k' :: k' != k ==> Get(q.laptopA, k') == Get(p.laptopA, k')
    ensures forall k' :: k' != k ==> Get(q.laptopB, k') == Get(p.laptopB, k')
    ensures side == SideA ==> q.laptopB == p.laptopB
    ensures side == SideB ==> q.laptopA == p.laptopA
    ensures q.(laptopA := p.laptopA, laptopB := p.laptopB) == p
  {
    if side == SideA then p.(laptopA := Set(p.laptopA, k, v))
    else p.(laptopB := Set(p.laptopB, k, v))
  }

  /** The JSON body of one `/predict` request. The inches and weight go out
      as the field text as typed, such as "15.6abc", where the page sends
      the float `parseFloat` reads from it (that value is not modelled); the
      RAM goes out as the value `parseInt` reads. */
  datatype PredictBody = PredictBody(
    company: string, product: string, typeName: string, inches: string,
    screenResolution: string, cpu: string, ram: int, memory: string,
    gpu: string, opSys: string, weight: string)

  function BodyOf(f: LaptopForm): (b: PredictBody)
    requires Passes(RamInteger, f)
    ensures b.ram == ParseIntValue(f.ram).value
  {
    PredictBody(f.company, f.product, f.typeName, f.inches, f.screenResolution, f.cpu,
                ParseIntValue(f.ram).value, f.memory, f.gpu, f.opSys, f.weight)
  }

  const MsgFormInvalid := "Form tidak valid"

  /** `errorA || errorB || "Form tidak valid"`. */
  function ShownError(errA: Option<string>, errB: Option<string>): (e: string)
    ensures e != ""
    ensures errA.Some? && errA.value != "" ==> e == errA.value
    ensures !(errA.Some? && errA.value != "") && errB.Some? && errB.value != "" ==> e == errB.value
    ensures !(errA.Some? && errA.value != "") && !(errB.Some? && errB.value != "") ==> e == MsgFormInvalid
  {
    var cands := [errA, errB, Some(MsgFormInvalid)];
    var r := FirstTruthy(cands, NonEmpty);
    assert Truthy(cands[2], NonEmpty);
    assert r.Some?;
    var i :| 0 <= i < |cands| && cands[i] == r && forall j :: 0 <= j < i ==> !Truthy(cands[j], NonEmpty);
    assert Truthy(cands[i], NonEmpty);
    assert Truthy(cands[0], NonEmpty) ==> i == 0;
    assert !Truthy(cands[0], NonEmpty) && Truthy(cands[1], NonEmpty) ==> i == 1;
    r.value
  }

  /** With non-empty messages the fallback is never shown when a form
      fails: the error is Laptop 1's when it fails and Laptop 2's
      otherwise. */
  lemma ShownErrorPrefersA(errA: Option<string>, errB: Option<string>)
    requires errA.Some? ==> errA.value != ""
    requires errB.Some? ==> errB.value != ""
    requires errA.Some? || errB.Some?
    ensures ShownError(errA, errB) == if errA.Some? then errA.value else errB.value
  {
    var cands := [errA, errB, Some(MsgFormInvalid)];
    var r := FirstTruthy(cands, NonEmpty);
    var i :| 0 <= i < |cands| && cands[i] == r && forall j :: 0 <= j < i ==> !Truthy(cands[j], NonEmpty);
    if errA.Some? {
      assert Truthy(cands[0], NonEmpty);
      assert i == 0;
    } else {
      assert Truthy(cands[1], NonEmpty);
      assert i == 1;
    }
  }

  /** `handlePredict` up to sending the requests: nothing without options; a
      failing form only sets the error; otherwise the page starts loading,
      clears the error and both prices, and both bodies are sent. */
  function Submit(p: Page): (r: (Page, Option<(PredictBody, PredictBody)>))
    ensures p.options.None? ==> r == (p, None)
    ensures p.options.Some? && (ValidateForm(p.laptopA).Some? || ValidateForm(p.laptopB).Some?) ==>
      && r.1.None?
      && r.0 == p.(error := if ValidateForm(p.laptopA).Some? then ValidateForm(p.laptopA)
                            else ValidateForm(p.laptopB))
    ensures r.1.Some? <==> p.options.Some? && ValidateForm(p.laptopA).None? && ValidateForm(p.laptopB).None?
    ensures r.1.Some? ==>
      && r.0 == p.(loading := true, error := None, priceA := None, priceB := None)
      && r.1.value.0.ram == ParseIntValue(p.laptopA.ram).value
      && r.1.value.1.ram == ParseIntValue(p.laptopB.ram).value
  {
    if p.options.None? then (p, None)
    else
      var errA := ValidateForm(p.laptopA);
      var errB := ValidateForm(p.laptopB);
      if errA.Some? || errB.Some? then
        ShownErrorPrefersA(errA, errB);
        (p.(error := Some(ShownError(errA, errB))), None)
      else
        assert Passes(Rules[2], p.laptopA) && Passes(Rules[2], p.laptopB);
        (p.(loading := true, error := None, priceA := None, priceB := None),
         Some((BodyOf(p.laptopA), BodyOf(p.laptopB))))
  }

  /** How the two requests ended: the 15-second timeout aborted them, the
      network or a JSON body failed with a message, or both responses came
      back with their status, text and predicted price. */
  datatype PredictOutcome =
    | TimedOut
    | Failed(message: string)
    | Answered(okA: bool, textA: string, priceA: real, okB: bool, textB: string, priceB: real)

  const MsgPredictTimeout := "Prediksi timeout. Coba lagi."
  const MsgPredictFallback := "Terjadi kesalahan saat prediksi"
  const PredictFailedPrefix := "Prediksi gagal: "

  /** The rest of `handlePredict`: both prices on success, an error message
      otherwise, and loading off in every case. */
  function Complete(p: Page, outcome: PredictOutcome): (q: Page)
    ensures !q.loading
    ensures q.(loading := p.loading, error := p.error, priceA := p.priceA, priceB := p.priceB) == p
  {
    var done := p.(loading := false);
    match outcome
    case TimedOut => done.(error := Some(MsgPredictTimeout))
    case Failed(m) => done.(error := Some(if m != "" then m else MsgPredictFallback))
    case Answered(okA, textA, a, okB, textB, b) =>
      if !okA || !okB then
        done.(error := Some(PredictFailedPrefix + (if !okA then textA else textB)))
      else done.(priceA := Some(a), priceB := Some(b))
  }

  /** A valid round never shows half a result: after submitting and
      completing, both prices are present exactly when both responses were
      ok, and then there is no error; otherwise there is an error and no
      price at all. */
  lemma PredictRoundAllOrNothing(p: Page, outcome: PredictOutcome)
    requires Submit(p).1.Some?
    ensures var q := Complete(Submit(p).0, outcome);
      && !q.loading
      && (q.priceA.Some? <==> q.priceB.Some?)
      && (q.priceA.Some? <==> outcome.Answered? && outcome.okA && outcome.okB)
      && (q.error.None? <==> q.priceA.Some?)
  {
    var s := Submit(p).0;
    assert s.error.None? && s.priceA.None? && s.priceB.None?;
    CompleteAllOrNothing(s, outcome);
  }

  /** Completing a round started with no error and no prices. */
  lemma CompleteAllOrNothing(s: Page, outcome: PredictOutcome)
    requires s.error.None? && s.priceA.None? && s.priceB.None?
    ensures var q := Complete(s, outcome);
      && (q.priceA.Some? <==> q.priceB.Some?)
      && (q.priceA.Some? <==> outcome.Answered? && outcome.okA && outcome.okB)
      && (q.error.None? <==> q.priceA.Some?)
  {
  }

  /** The error after a failed answer quotes Laptop 1's response when it
      failed, whatever Laptop 2's did. */
  lemma PredictErrorQuotesFirstFailure(p: Page, textA: string, a: real, okB: bool, textB: string, b: real)
    ensures Complete(p, Answered(false, textA, a, okB, textB, b)).error == Some(PredictFailedPrefix + textA)
    ensures Complete(p, Answered(true, textA, a, false, textB, b)).error == Some(PredictFailedPrefix + textB)
  {
  }
}
