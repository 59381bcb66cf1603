/**
 Course content: the `course`, `module` and `lesson` tables, and the order the application
 gives the lessons of one course. Content is immutable once learners enroll, so every other
 module takes it as a parameter.
 */
module Catalog {

  // A uuid is a 128-bit number; only equality matters.
  type Uuid = nat

  datatype Ordering = Sequential | Open

  datatype Publication = Draft | Published | Archived

  datatype Course = Course(ordering: Ordering, status: Publication)

  datatype CourseModule = CourseModule(course: Uuid, position: int)

  datatype Lesson = Lesson(within: Uuid, position: int)

  datatype Content = Content(courses: map<Uuid, Course>, modules: map<Uuid, CourseModule>, lessons: map<Uuid, Lesson>)
  {
    /** The foreign keys and the two unique-position constraints of the schema. */
    ghost predicate Valid() {
      && (forall m | m in modules :: modules[m].course in courses)
      && (forall l | l in lessons :: lessons[l].within in modules)
      && (forall m, n | m in modules && n in modules && modules[m] == modules[n] :: m == n)
      && (forall k, l | k in lessons && l in lessons && lessons[k] == lessons[l] :: k == l)
    }

    predicate IsPublished(course: Uuid) {
      course in courses && courses[course].status == Published
    }

    predicate IsSequential(course: Uuid) {
      course in courses && courses[course].ordering == Sequential
    }

    /** The lessons the course reaches through its modules. */
    function LessonsOf(course: Uuid): set<Uuid> {
      set l | l in lessons && lessons[l].within in modules && modules[lessons[l].within].course == course
    }

    function Total(course: Uuid): nat {
      |LessonsOf(course)|
    }

    /** Strictly earlier by (module position, lesson position). */
    predicate Earlier(k: Uuid, l: Uuid) {
      && k in lessons && lessons[k].within in modules
      && l in lessons && lessons[l].within in modules
      && var m, n := modules[lessons[k].within].position, modules[lessons[l].within].position;
         m < n || (m == n && lessons[k].position < lessons[l].position)
    }

    /** Unique positions make any two different lessons of a course comparable. */
    lemma EarlierIsTotal(course: Uuid, k: Uuid, l: Uuid)
      requires Valid() && k in LessonsOf(course) && l in LessonsOf(course)
      ensures k == l || Earlier(k, l) || Earlier(l, k)
    {
      var m, n := modules[lessons[k].within], modules[lessons[l].within];
      if m.position == n.position {
        assert m == n;
        assert lessons[k].within == lessons[l].within;
        if lessons[k].position == lessons[l].position {
          assert lessons[k] == lessons[l];
        }
      }
    }

    predicate IsFirst(some: set<Uuid>, first: Uuid) {
      first in some && forall l | l in some :: l == first || Earlier(first, l)
    }

    /** Every nonempty set of lessons of one course has a first one. */
    lemma {:induction false} FirstExists(course: Uuid, some: set<Uuid>)
      requires Valid() && some <= LessonsOf(course) && some != {}
      ensures exists first :: IsFirst(some, first)
      decreases some
    {
      var pick :| pick in some;
      var rest := some - {pick};
      assert forall l | l in some :: l == pick || l in rest;
      if rest == {} {
        assert IsFirst(some, pick);
      } else {
        FirstExists(course, rest);
        var first :| IsFirst(rest, first);
        EarlierIsTotal(course, first, pick);
        assert IsFirst(some, if Earlier(pick, first) then pick else first);
      }
    }

    /** The set listed by `order by m.position, l.position`. */
    function Listed(course: Uuid, some: set<Uuid>): (list: seq<Uuid>)
      requires Valid() && some <= LessonsOf(course)
      ensures |list| == |some| && forall l :: l in list <==> l in some
      decreases some
    {
      if some == {} then [] else
        FirstExists(course, some);
        var first :| IsFirst(some, first);
        [first] + Listed(course, some - {first})
    }

    ghost predicate InOrder(list: seq<Uuid>) {
      forall i, j | 0 <= i < j < |list| :: Earlier(list[i], list[j])
    }

    lemma ConsInOrder(first: Uuid, rest: seq<Uuid>)
      requires InOrder(rest) && forall l | l in rest :: Earlier(first, l)
      ensures InOrder([first] + rest)
    {
    }

    lemma {:induction false} ListedInOrder(course: Uuid, some: set<Uuid>)
      requires Valid() && some <= LessonsOf(course)
      ensures InOrder(Listed(course, some))
      decreases some
    {
      if some == {} {
      } else {
        FirstExists(course, some);
        var first := Listed(course, some)[0];
        ListedInOrder(course, some - {first});
        ConsInOrder(first, Listed(course, some - {first}));
      }
    }
  }
}
