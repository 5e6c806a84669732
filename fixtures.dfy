/** The four-record data set the test suite runs the engine on, and what the
    tests expect of each query on it. */
module TaskFixtures {
  import opened Optional
  import opened Text
  import opened Dates
  import opened Selection
  import opened Tasks

  const Task1: Task := Task(Some(1), Some("Test 1"), Some("This is the first test"), Some("Low"), Some("Work"),
                            Some("2025-04-23"), Some(false), Some("2025-04-10 17:54:06"))
  const Task2: Task := Task(Some(2), Some("Test 2"), Some("Second test"), Some("Medium"), Some("Personal"),
                            Some("2026-04-10"), Some(true), Some("2025-04-10 17:54:10"))
  const Task3: Task := Task(Some(3), Some("Test 3"), Some("This is THE TEST"), Some("High"), Some("School"),
                            Some("1900-04-10"), Some(false), Some("2025-04-10 17:54:16"))
  const Task4: Task := Task(Some(4), Some("The Test 4"), Some("Fourth test"), Some("Low"), Some("Work"),
                            Some("2025-04-24"), Some(true), Some("2025-04-22 00:00:00"))

  const TestData: seq<Task> := [Task1, Task2, Task3, Task4]

  const NoFields: Task := Task(None, None, None, None, None, None, None, None)

  /** The incomplete record the overdue test adds, due on `day`. */
  function DueOn(day: Date): Task
    requires ValidDate(day)
  {
    Task(Some(5), Some("Test 5"), Some("This task is due tomorrow"), Some("Low"), Some("Work"),
         Some(FormatDate(day)), Some(false), Some("2025-04-10 17:54:06"))
  }

  function WithId(id: int): Task {
    NoFields.(id := Some(id))
  }

  lemma GenerateUniqueIdExamples()
    ensures GenerateUniqueId(TestData) == 5
    ensures GenerateUniqueId([]) == 1
    ensures GenerateUniqueId([WithId(3), NoFields, WithId(7)]) == 8
  {
    assert forall t :: t in TestData ==> IdOrZero(t) <= 4;
    assert Task4 in TestData;
    var others := [WithId(3), NoFields, WithId(7)];
    assert forall t :: t in others ==> IdOrZero(t) <= 7;
    assert WithId(7) in others;
  }

  lemma FilterByPriorityExample()
    ensures FilterTasksByPriority(TestData, "High") == [Task3]
  {
    FilterOfFour(Task1, Task2, Task3, Task4, PriorityIs("High"));
  }

  lemma FilterByCategoryWorkExample()
    ensures FilterTasksByCategory(TestData, "Work") == [Task1, Task4]
  {
    FilterOfFour(Task1, Task2, Task3, Task4, CategoryIs("Work"));
  }

  lemma FilterByCategoryPersonalExample()
    ensures FilterTasksByCategory(TestData, "Personal") == [Task2]
  {
    FilterOfFour(Task1, Task2, Task3, Task4, CategoryIs("Personal"));
  }

  lemma FilterByCategorySchoolExample()
    ensures FilterTasksByCategory(TestData, "School") == [Task3]
  {
    FilterOfFour(Task1, Task2, Task3, Task4, CategoryIs("School"));
  }

  lemma FilterByCompletionExample()
    ensures FilterTasksByCompletion(TestData, true) == [Task2, Task4]
  {
    FilterOfFour(Task1, Task2, Task3, Task4, CompletionIs(true));
  }

  /** `query` occurs at index `i` of the lower-cased title or description of `t`. */
  lemma MentionedAt(t: Task, query: string, i: nat)
    requires OccursAt(Lower(TextOf(t.title)), query, i) || OccursAt(Lower(TextOf(t.description)), query, i)
    ensures Mentions(query)(t)
  {
  }

  /** Neither the title nor the description of `t` has a character that lower-cases to `c`. */
  lemma NotMentioned(t: Task, query: string, c: char)
    requires c in query
    requires forall x :: x in TextOf(t.title) ==> LowerChar(x) != c
    requires forall x :: x in TextOf(t.description) ==> LowerChar(x) != c
    ensures !Mentions(query)(t)
  {
    LowerMissesQuery(TextOf(t.title), query, c);
    LowerMissesQuery(TextOf(t.description), query, c);
  }

  lemma MentionsTheTask1()
    ensures Mentions("the")(Task1)
  {
    MentionedAt(Task1, "the", 8);
  }

  lemma MentionsTheTask2()
    ensures !Mentions("the")(Task2)
  {
    NotMentioned(Task2, "the", 'h');
  }

  lemma MentionsTheTask3()
    ensures Mentions("the")(Task3)
  {
    MentionedAt(Task3, "the", 8);
  }

  lemma MentionsTheTask4()
    ensures Mentions("the")(Task4)
  {
    MentionedAt(Task4, "the", 0);
  }

  lemma FilterTheRecords()
    ensures Filter(TestData, Mentions("the")) == [Task1, Task3, Task4]
  {
    MentionsTheTask1();
    MentionsTheTask2();
    MentionsTheTask3();
    MentionsTheTask4();
    FilterOfFour(Task1, Task2, Task3, Task4, Mentions("the"));
  }

  lemma SearchTheExample()
    ensures SearchTasks(TestData, "tHe") == [Task1, Task3, Task4]
  {
    assert Lower("tHe") == "the";
    FilterTheRecords();
  }

  lemma MentionsTestTask1()
    ensures Mentions("test")(Task1)
  {
    MentionedAt(Task1, "test", 0);
  }

  lemma MentionsTestTask2()
    ensures Mentions("test")(Task2)
  {
    MentionedAt(Task2, "test", 0);
  }

  lemma MentionsTestTask3()
    ensures Mentions("test")(Task3)
  {
    MentionedAt(Task3, "test", 0);
  }

  lemma MentionsTestTask4()
    ensures Mentions("test")(Task4)
  {
    MentionedAt(Task4, "test", 4);
  }

  lemma FilterTestRecords()
    ensures Filter(TestData, Mentions("test")) == TestData
  {
    MentionsTestTask1();
    MentionsTestTask2();
    MentionsTestTask3();
    MentionsTestTask4();
    FilterOfFour(Task1, Task2, Task3, Task4, Mentions("test"));
  }

  lemma SearchTestExample()
    ensures SearchTasks(TestData, "TEST") == TestData
  {
    assert Lower("TEST") == "test";
    FilterTestRecords();
  }

  lemma MentionsThisTask1()
    ensures Mentions("this")(Task1)
  {
    MentionedAt(Task1, "this", 0);
  }

  lemma MentionsThisTask2()
    ensures !Mentions("this")(Task2)
  {
    NotMentioned(Task2, "this", 'h');
  }

  lemma MentionsThisTask3()
    ensures Mentions("this")(Task3)
  {
    MentionedAt(Task3, "this", 0);
  }

  lemma MentionsThisTask4()
    ensures !Mentions("this")(Task4)
  {
    NotMentioned(Task4, "this", 'i');
  }

  lemma FilterThisRecords()
    ensures Filter(TestData, Mentions("this")) == [Task1, Task3]
  {
    MentionsThisTask1();
    MentionsThisTask2();
    MentionsThisTask3();
    MentionsThisTask4();
    FilterOfFour(Task1, Task2, Task3, Task4, Mentions("this"));
  }

  lemma SearchThisExample()
    ensures SearchTasks(TestData, "this") == [Task1, Task3]
  {
    assert Lower("this") == "this";
    FilterThisRecords();
  }

  /** A record due on any day after `today` is not overdue; the one due in 1900 is. */
  lemma OverdueExcludesTomorrow(today: Date, tomorrow: Date)
    requires ValidDate(tomorrow)
    requires Before(Date(1900, 4, 10), today) && Before(today, tomorrow)
    ensures Overdue([Task3, DueOn(tomorrow)], today) == [Task3]
  {
    OverdueTask3(today);
    DueTomorrowNotOverdue(today, tomorrow);
    assert [Task3] + [DueOn(tomorrow)] == [Task3, DueOn(tomorrow)];
    FilterSnoc([Task3], DueOn(tomorrow), OverdueOn(today));
    FilterSnoc([], Task3, OverdueOn(today));
    assert [] + [Task3] == [Task3];
  }

  lemma DueTomorrowNotOverdue(today: Date, tomorrow: Date)
    requires ValidDate(tomorrow) && Before(today, tomorrow)
    ensures !OverdueOn(today)(DueOn(tomorrow))
  {
    OverdueIffDueBeforeToday(DueOn(tomorrow), today, tomorrow);
  }

  /** On any day after 2025-04-23, records 1 and 3 of the data set are overdue. */
  lemma OverdueOfTestData(today: Date)
    requires Before(Date(2025, 4, 23), today)
    ensures Overdue(TestData, today) == [Task1, Task3]
  {
    OverdueTask1(today);
    OverdueTask3(today);
    CompletedTasksNotOverdue(today);
    FilterOfFour(Task1, Task2, Task3, Task4, OverdueOn(today));
    assert [Task1] + [] + [Task3] + [] == [Task1, Task3];
  }

  lemma OverdueTask1(today: Date)
    requires Before(Date(2025, 4, 23), today)
    ensures OverdueOn(today)(Task1)
  {
    assert ZeroPadded(2025, 4) == "2025" by {
      assert ZeroPadded(2, 1) == "2" && ZeroPadded(20, 2) == "20" && ZeroPadded(202, 3) == "202";
    }
    assert ZeroPadded(4, 2) == "04" && ZeroPadded(23, 2) == "23";
    assert FormatDate(Date(2025, 4, 23)) == "2025-04-23";
    OverdueIffDueBeforeToday(Task1, today, Date(2025, 4, 23));
  }

  lemma OverdueTask3(today: Date)
    requires Before(Date(1900, 4, 10), today)
    ensures OverdueOn(today)(Task3)
  {
    assert ZeroPadded(1900, 4) == "1900" by {
      assert ZeroPadded(1, 1) == "1" && ZeroPadded(19, 2) == "19" && ZeroPadded(190, 3) == "190";
    }
    assert ZeroPadded(4, 2) == "04" && ZeroPadded(10, 2) == "10";
    assert FormatDate(Date(1900, 4, 10)) == "1900-04-10";
    OverdueIffDueBeforeToday(Task3, today, Date(1900, 4, 10));
  }

  lemma CompletedTasksNotOverdue(today: Date)
    ensures !OverdueOn(today)(Task2) && !OverdueOn(today)(Task4)
  {
  }
}
