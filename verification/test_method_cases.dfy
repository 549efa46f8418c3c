/** The test methods of the naming tests: `FooTest::testBar` without a data
    set, with the integer data set `9000`, and with the string data set
    `bar-9000`. */
module TestMethodCases {
  import opened Wrappers
  import opened TestMethods
  import Decimal

  /** A `FooTest::testBar` declared on line 1 of `FooTest.php`, with no metadata. */
  function FooTestBar(testData: TestDataCollection): (t: TestMethod)
    ensures t.className == "FooTest" && t.methodName == "testBar"
    ensures t.testData == testData
  {
    Create("FooTest", "testBar", "FooTest.php", 1, "Foo", "Bar", MetadataCollection([]), testData)
  }

  /** The constructor test: every accessor gives back its argument. */
  lemma ConstructorSetsValues()
    ensures var t := FooTestBar(TestDataCollection(None));
      && t.className == "FooTest" && t.methodName == "testBar"
      && t.file == "FooTest.php" && t.line == 1
      && t.prettifiedClassName == "Foo" && t.prettifiedMethodName == "Bar"
      && t.metadata == MetadataCollection([]) && t.testData == TestDataCollection(None)
  {
  }

  /** Without a data set, `name()` is the method name and `id()` the qualified one. */
  lemma NameWithoutDataSet()
    ensures Name(FooTestBar(TestDataCollection(None))) == "testBar"
    ensures Id(FooTestBar(TestDataCollection(None))) == "FooTest::testBar"
  {
    assert "FooTest" + "::" + "testBar" == "FooTest::testBar";
  }

  /** With the integer data set `9000`, the number follows `#`. */
  lemma NameWithIntDataSet()
    ensures Name(FooTestBar(TestDataCollection(Some(DataFromDataProvider(IntName(9000), "data")))))
         == "testBar with data set #9000"
    ensures Id(FooTestBar(TestDataCollection(Some(DataFromDataProvider(IntName(9000), "data")))))
         == "FooTest::testBar#9000"
  {
    assert Decimal.IntToDecimal(9000) == "9000";
    assert "testBar" + (" with data set " + "#" + "9000") == "testBar with data set #9000";
    assert "FooTest" + "::" + "testBar" + "#" + "9000" == "FooTest::testBar#9000";
  }

  /** The name suffix for `bar-9000`, assembled from its parts. */
  lemma StrSuffixLiteral()
    ensures "testBar" + (" with data set " + "\"" + "bar-9000" + "\"") == "testBar with data set \"bar-9000\""
  {
    assert "\"" + "bar-9000" + "\"" == "\"bar-9000\"";
    assert " with data set " + "\"" + "bar-9000" + "\"" == " with data set " + ("\"" + "bar-9000" + "\"");
  }

  /** The qualified name for `bar-9000`, assembled from its parts. */
  lemma StrQualifiedLiteral()
    ensures "FooTest" + "::" + "testBar with data set \"bar-9000\"" == "FooTest::testBar with data set \"bar-9000\""
  {
    assert "FooTest" + "::" == "FooTest::";
  }

  /** With the string data set `bar-9000`, the name follows in double quotes. */
  lemma NameWithStringDataSet()
    ensures Name(FooTestBar(TestDataCollection(Some(DataFromDataProvider(StrName("bar-9000"), "data")))))
         == "testBar with data set \"bar-9000\""
    ensures NameWithClass(FooTestBar(TestDataCollection(Some(DataFromDataProvider(StrName("bar-9000"), "data")))))
         == "FooTest::testBar with data set \"bar-9000\""
  {
    StrSuffixLiteral();
    StrQualifiedLiteral();
  }
}
