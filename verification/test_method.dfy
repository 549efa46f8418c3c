/** A test method as the event system describes it: its class and method,
    where it is declared, its display names, its metadata and its test data,
    and the three names built from them (`id`, `name`, `nameWithClass`). */
module TestMethods {
  import opened Wrappers
  import Decimal

  /** The name of a data set: the key a data provider gave it, an integer or a string. */
  datatype DataSetName = IntName(n: int) | StrName(s: string)

  /** The data set a data provider supplied, with its exported arguments. */
  datatype DataFromDataProvider = DataFromDataProvider(dataSetName: DataSetName, dataAsStringForResultOutput: string)

  /** The test data of a run; only the data set from a data provider, if
      any, enters the names. */
  datatype TestDataCollection = TestDataCollection(fromDataProvider: Option<DataFromDataProvider>)

  /** The metadata attached to the test; carried, never inspected. */
  datatype MetadataCollection = MetadataCollection(entries: seq<string>)

  datatype TestMethod = TestMethod(
    className: string,
    methodName: string,
    file: string,
    line: int,
    prettifiedClassName: string,
    prettifiedMethodName: string,
    metadata: MetadataCollection,
    testData: TestDataCollection)

  /** The constructor: every accessor returns the argument it was given. */
  function Create(
    className: string, methodName: string, file: string, line: int,
    prettifiedClassName: string, prettifiedMethodName: string,
    metadata: MetadataCollection, testData: TestDataCollection): (t: TestMethod)
    ensures t.className == className && t.methodName == methodName
    ensures t.file == file && t.line == line
    ensures t.prettifiedClassName == prettifiedClassName
    ensures t.prettifiedMethodName == prettifiedMethodName
    ensures t.metadata == metadata && t.testData == testData
  {
    TestMethod(className, methodName, file, line, prettifiedClassName, prettifiedMethodName, metadata, testData)
  }

  /** A test method is a test method. */
  function IsTestMethod(t: TestMethod): (r: bool)
    ensures r
  {
    true
  }

  /** The data set name as string concatenation writes it: an integer in decimal. */
  function DataSetNameText(d: DataSetName): (s: string)
    ensures d.IntName? ==> Decimal.ParseInt(s) == Some(d.n) && Decimal.DecimalForm(s)
    ensures d.StrName? ==> s == d.s
  {
    match d
    case IntName(n) =>
      Decimal.IntDecimalRoundTrip(n);
      Decimal.IntToDecimalForm(n);
      Decimal.IntToDecimal(n)
    case StrName(s) => s
  }

  /** `className::methodName`. */
  function Qualified(className: string, methodName: string): (s: string)
    ensures |s| == |className| + 2 + |methodName|
    ensures s[..|className|] == className
    ensures s[|className|..|className| + 2] == "::"
    ensures s[|className| + 2..] == methodName
  {
    className + "::" + methodName
  }

  /** `id()`: the qualified method name, followed by `#` and the data set's
      name when a data provider supplied one. */
  function Id(t: TestMethod): (r: string)
    ensures |r| >= |Qualified(t.className, t.methodName)|
    ensures r[..|Qualified(t.className, t.methodName)|] == Qualified(t.className, t.methodName)
    ensures t.testData.fromDataProvider.None? ==> r == Qualified(t.className, t.methodName)
    ensures t.testData.fromDataProvider.Some? ==>
      var q := Qualified(t.className, t.methodName);
      |r| > |q| && r[|q|] == '#' && r[|q| + 1..] == DataSetNameText(t.testData.fromDataProvider.value.dataSetName)
  {
    var buffer := Qualified(t.className, t.methodName);
    match t.testData.fromDataProvider
    case None => buffer
    case Some(data) => buffer + "#" + DataSetNameText(data.dataSetName)
  }

  const WithDataSet: string := " with data set "

  /** The suffix `name()` gives a data set: `#` and the number for an
      integer name, the name in double quotes for a string name. */
  function DataSetSuffix(d: DataSetName): (s: string)
    ensures |s| > |WithDataSet| && s[..|WithDataSet|] == WithDataSet
    ensures d.IntName? ==> s[|WithDataSet|] == '#' && s[|WithDataSet| + 1..] == Decimal.IntToDecimal(d.n)
    ensures d.StrName? ==>
      |s| == |WithDataSet| + |d.s| + 2 && s[|WithDataSet|] == '"'
      && s[|WithDataSet| + 1..|s| - 1] == d.s && s[|s| - 1] == '"'
  {
    match d
    case IntName(n) => WithDataSet + "#" + Decimal.IntToDecimal(n)
    case StrName(s) => WithDataSet + "\"" + s + "\""
  }

  /** `name()`: the method name, followed by the data set suffix when a data
      provider supplied a data set. */
  function Name(t: TestMethod): (r: string)
    ensures t.testData.fromDataProvider.None? ==> r == t.methodName
    ensures t.testData.fromDataProvider.Some? ==>
      |r| > |t.methodName| && r[..|t.methodName|] == t.methodName
      && r[|t.methodName|..] == DataSetSuffix(t.testData.fromDataProvider.value.dataSetName)
  {
    match t.testData.fromDataProvider
    case None => t.methodName
    case Some(data) => t.methodName + DataSetSuffix(data.dataSetName)
  }

  /** `nameWithClass()`: the class name, `::` and `name()`. */
  function NameWithClass(t: TestMethod): (r: string)
    ensures |r| == |t.className| + 2 + |Name(t)|
    ensures r[..|t.className| + 2] == t.className + "::"
    ensures r[|t.className| + 2..] == Name(t)
  {
    t.className + "::" + Name(t)
  }

  /** Different data sets of one method get different names. */
  lemma DataSetSuffixInjective(d: DataSetName, e: DataSetName)
    requires DataSetSuffix(d) == DataSetSuffix(e)
    ensures d == e
  {
    var s := DataSetSuffix(d);
    var k := |WithDataSet|;
    if d.IntName? && e.IntName? {
      assert Decimal.IntToDecimal(d.n) == s[k + 1..] == Decimal.IntToDecimal(e.n);
      Decimal.IntToDecimalInjective(d.n, e.n);
    } else if d.StrName? && e.StrName? {
      assert d.s == s[k + 1..|s| - 1] == e.s;
    }
  }

  /** With the same method name, `name()` tells apart every data set and
      the absence of one. */
  lemma NameInjective(t: TestMethod, u: TestMethod)
    requires t.methodName == u.methodName
    requires Name(t) == Name(u)
    ensures t.testData.fromDataProvider.Some? == u.testData.fromDataProvider.Some?
    ensures t.testData.fromDataProvider.Some? ==>
      t.testData.fromDataProvider.value.dataSetName == u.testData.fromDataProvider.value.dataSetName
  {
    var m := t.methodName;
    if t.testData.fromDataProvider.Some? && u.testData.fromDataProvider.Some? {
      DataSetSuffixInjective(t.testData.fromDataProvider.value.dataSetName, u.testData.fromDataProvider.value.dataSetName);
    }
  }

  /** `nameWithClass()` equals `id()` exactly when there is no data set:
      with one, `id()` continues with `#` where `name()` continues with a space. */
  lemma NameWithClassIsIdIffNoDataSet(t: TestMethod)
    ensures NameWithClass(t) == Id(t) <==> t.testData.fromDataProvider.None?
  {
    var q := Qualified(t.className, t.methodName);
    if t.testData.fromDataProvider.Some? {
      var r := NameWithClass(t);
      assert r[|q|] == Name(t)[|t.methodName|];
      assert Name(t)[|t.methodName|] == ' ';
    } else {
      assert NameWithClass(t) == q;
    }
  }

  /** `id()` does not tell an integer data set name from the string of its
      digits: `IntName(5)` and `StrName("5")` give the same id. */
  lemma IdConflatesIntAndDigitNames(t: TestMethod, n: int)
    requires t.testData.fromDataProvider.Some?
    ensures Id(t.(testData := TestDataCollection(Some(t.testData.fromDataProvider.value.(dataSetName := IntName(n))))))
         == Id(t.(testData := TestDataCollection(Some(t.testData.fromDataProvider.value.(dataSetName := StrName(Decimal.IntToDecimal(n)))))))
  {
  }
}
