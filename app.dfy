/** `ProjectService` (src/app.ts): owns one `Project` and adds tasks and
    goals to it in bulk. */
module App {
  import opened Domain

  class ProjectService {
    const project: Project

    /** Creates the project with the given name. */
    constructor(projectName: string)
      ensures fresh(project)
      ensures project.name == projectName
      ensures project.tasks == [] && project.goals == []
    {
      project := new Project(projectName);
    }

    /** `addTasks`: appends every task, in order; the goals stay as they
        were. */
    method AddTasks(tasks: seq<string>)
      modifies project
      ensures project.tasks == old(project.tasks) + tasks
      ensures project.goals == old(project.goals)
    {
      for i := 0 to |tasks|
        invariant project.tasks == old(project.tasks) + tasks[..i]
        invariant project.goals == old(project.goals)
      {
        project.AddTask(tasks[i]);
        assert tasks[..i + 1] == tasks[..i] + [tasks[i]];
      }
      assert tasks[..|tasks|] == tasks;
    }

    /** `addGoals`: appends every goal, in order; the tasks stay as they
        were. */
    method AddGoals(goals: seq<string>)
      modifies project
      ensures project.goals == old(project.goals) + goals
      ensures project.tasks == old(project.tasks)
    {
      for i := 0 to |goals|
        invariant project.goals == old(project.goals) + goals[..i]
        invariant project.tasks == old(project.tasks)
      {
        project.AddGoal(goals[i]);
        assert goals[..i + 1] == goals[..i] + [goals[i]];
      }
      assert goals[..|goals|] == goals;
    }

    /** `getProject`: the one instance the service was built with, which
        no method replaces. */
    method GetProject() returns (p: Project)
      ensures p == project
    {
      p := project;
    }
  }
}
