/** `Project` (src/domain.ts): a named project whose task and goal lists
    only grow. */
module Domain {

  /** What `toJSON` reports. */
  datatype ProjectJson = ProjectJson(name: string, tasks: seq<string>, goals: seq<string>)

  class Project {
    /** Fixed at construction. */
    const name: string
    var tasks: seq<string>
    var goals: seq<string>

    /** A new project has no tasks and no goals. */
    constructor(name: string)
      ensures this.name == name
      ensures tasks == [] && goals == []
    {
      this.name := name;
      tasks := [];
      goals := [];
    }

    /** `addTask`: appends `task`; the goals are untouched. */
    method AddTask(task: string)
      modifies this
      ensures tasks == old(tasks) + [task]
      ensures goals == old(goals)
    {
      tasks := tasks + [task];
    }

    /** `addGoal`: appends `goal`; the tasks are untouched. */
    method AddGoal(goal: string)
      modifies this
      ensures goals == old(goals) + [goal]
      ensures tasks == old(tasks)
    {
      goals := goals + [goal];
    }

    /** `getTasks`: a copy of the tasks, which later changes to the project
        do not reach, since a sequence is a value. */
    method GetTasks() returns (copy: seq<string>)
      ensures copy == tasks
    {
      copy := tasks;
    }

    /** `getGoals`: a copy of the goals. */
    method GetGoals() returns (copy: seq<string>)
      ensures copy == goals
    {
      copy := goals;
    }

    /** `toJSON`: the current name, tasks and goals. */
    function ToJson(): (json: ProjectJson)
      reads this
      ensures json.name == name && json.tasks == tasks && json.goals == goals
    {
      ProjectJson(name, tasks, goals)
    }
  }
}
