/** `AnswerType`: the closed set of scalar answer kinds a form schema may declare. */
module Constants {
  import opened Py

  /** The four members, with the values 1 to 4 in declaration order. */
  datatype AnswerType = Number | Text | Boolean | Date {

    /** The member's `.name`, the spelling used in schemas and in dict output. */
    function Name(): string {
      match this
      case Number => "number"
      case Text => "text"
      case Boolean => "boolean"
      case Date => "date"
    }

    /** The member's `.value`. */
    function Ordinal(): int {
      match this
      case Number => 1
      case Text => 2
      case Boolean => 3
      case Date => 4
    }
  }

  const Names: set<string> := {"number", "text", "boolean", "date"}

  /** `AnswerType[name]`: lookup by member name; any other name raises KeyError. */
  function FromName(name: string): (r: Result<AnswerType>)
    ensures r.Ok? <==> name in Names
    ensures r.Ok? ==> r.value.Name() == name
    ensures r.Raise? ==> r.exc == KeyError
  {
    if name == "number" then Ok(Number)
    else if name == "text" then Ok(Text)
    else if name == "boolean" then Ok(Boolean)
    else if name == "date" then Ok(Date)
    else Raise(KeyError)
  }

  /** `AnswerType[t.name] == t`, on which the dict output shape relies. */
  lemma NameRoundTrip(t: AnswerType)
    ensures FromName(t.Name()) == Ok(t)
  {
  }

  /** Exactly four members, with distinct names and distinct values 1 to 4. */
  lemma FourMembers()
    ensures forall t: AnswerType :: (t == Number || t == Text || t == Boolean || t == Date)
                                    && 1 <= t.Ordinal() <= 4 && t.Name() in Names
    ensures forall t1: AnswerType, t2: AnswerType :: t1 != t2 ==> t1.Ordinal() != t2.Ordinal() && t1.Name() != t2.Name()
    ensures |Names| == 4
  {
    forall t: AnswerType
      ensures (t == Number || t == Text || t == Boolean || t == Date) && 1 <= t.Ordinal() <= 4 && t.Name() in Names
    {
      match t
      case Number =>
      case Text =>
      case Boolean =>
      case Date =>
    }
    forall t1: AnswerType, t2: AnswerType | t1 != t2 ensures t1.Ordinal() != t2.Ordinal() && t1.Name() != t2.Name() {
      NameRoundTrip(t1);
      NameRoundTrip(t2);
    }
    NamesCard();
  }

  lemma NamesCard()
    ensures |Names| == 4
  {
    var s2: set<string> := {"number", "text"};
    assert "number" != "text";
    assert |s2| == 2;
    var s3 := s2 + {"boolean"};
    assert "boolean" != "number" && "boolean" != "text";
    assert |s3| == 3;
    assert "date" != "number" && "date" != "text" && "date" != "boolean";
    assert Names == s3 + {"date"};
  }
}
