/** Tasks of a protocol, each at a program counter, and how counts of tasks change when one moves. */
module TaskSets {
  type Task = nat

  function Members<P>(tasks: map<Task, P>, p: P -> bool): set<Task> {
    set t | t in tasks.Keys && p(tasks[t])
  }

  function One(b: bool): nat {
    if b then 1 else 0
  }

  /** One task moves from was, which is where an unknown task counts as being, to pc. */
  lemma MembersMove<P>(tasks: map<Task, P>, t: Task, was: P, pc: P, p: P -> bool)
    requires if t in tasks then tasks[t] == was else !p(was)
    ensures |Members(tasks[t := pc], p)| == |Members(tasks, p)| - One(p(was)) + One(p(pc))
  {
    var before, after := Members(tasks, p), Members(tasks[t := pc], p);
    assert after == (before - {t}) + (if p(pc) then {t} else {});
    assert |before - {t}| == |before| - One(p(was));
  }
}
