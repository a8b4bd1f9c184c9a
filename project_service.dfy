/**
 * Project membership: looking a project up, and adding or removing
 * employees, all of whom must be found.
 */
module ProjectService {
  import opened Wrappers
  import opened Models

  /** A project and the ids of its member employees. */
  datatype Project = Project(
    id: Uuid,
    abbreviation: Option<string>,
    projectName: string,
    employees: set<Uuid>)

  /** The exceptions the membership operations throw. */
  datatype ProjectError = ProjectNotFound | IllegalState

  /** The ids a list mentions. */
  function Elements(ids: seq<Uuid>): set<Uuid> {
    set i | 0 <= i < |ids| :: ids[i]
  }

  /** No id is listed twice. */
  predicate Distinct(ids: seq<Uuid>) {
    forall i, j :: 0 <= i < j < |ids| ==> ids[i] != ids[j]
  }

  lemma ElementsAppend(ids: seq<Uuid>, x: Uuid)
    ensures Elements(ids + [x]) == Elements(ids) + {x}
  {
    var s := ids + [x];
    forall y | y in Elements(s)
      ensures y in Elements(ids) + {x}
    {
      var i :| 0 <= i < |s| && s[i] == y;
      if i < |ids| {
        assert ids[i] == y;
      }
    }
    forall y | y in Elements(ids)
      ensures y in Elements(s)
    {
      var i :| 0 <= i < |ids| && ids[i] == y;
      assert s[i] == y;
    }
    assert s[|ids|] == x;
  }

  /** A list has at most as many distinct ids as entries, and exactly as many iff none repeats. */
  lemma {:induction false} ElementsCard(ids: seq<Uuid>)
    ensures |Elements(ids)| <= |ids|
    ensures |Elements(ids)| == |ids| <==> Distinct(ids)
    decreases |ids|
  {
    if ids == [] {
      assert Elements(ids) == {};
    } else {
      var init, x := ids[..|ids| - 1], ids[|ids| - 1];
      assert ids == init + [x];
      ElementsCard(init);
      ElementsAppend(init, x);
      if x in Elements(init) {
        var k :| 0 <= k < |init| && init[k] == x;
        assert ids[k] == ids[|ids| - 1];
        assert !Distinct(ids);
      } else {
        assert Distinct(ids) <==> Distinct(init) by {
          if Distinct(init) {
            forall i, j | 0 <= i < j < |ids|
              ensures ids[i] != ids[j]
            {
              if j == |ids| - 1 {
                assert ids[i] == init[i];
              } else {
                assert ids[i] == init[i] && ids[j] == init[j];
              }
            }
          }
          if Distinct(ids) {
            forall i, j | 0 <= i < j < |init|
              ensures init[i] != init[j]
            {
              assert ids[i] == init[i] && ids[j] == init[j];
            }
          }
        }
      }
    }
  }

  /** A subset is no larger than its superset. */
  lemma {:induction false} SubsetCard(a: set<Uuid>, b: set<Uuid>)
    requires a <= b
    ensures |a| <= |b|
    decreases |b|
  {
    if b != {} {
      var x :| x in b;
      SubsetCard(a - {x}, b - {x});
    }
  }

  /** A subset as large as its superset is the superset. */
  lemma SubsetSameSize(a: set<Uuid>, b: set<Uuid>)
    requires a <= b && |a| == |b|
    ensures a == b
  {
    if a != b {
      assert exists x :: x in b && x !in a;
      var x :| x in b && x !in a;
      SubsetCard(a, b - {x});
    }
  }

  /**
   * `findByIdIn`: the stored employees among the requested ids, each once,
   * in the order the request first names them.
   */
  function FindByIdIn(ids: seq<Uuid>, employees: set<Uuid>): (r: seq<Uuid>)
    ensures Elements(r) == Elements(ids) * employees
    ensures Distinct(r)
    decreases |ids|
  {
    if ids == [] then []
    else
      var init, x := ids[..|ids| - 1], ids[|ids| - 1];
      ElementsAppend(init, x);
      assert ids == init + [x];
      var found := FindByIdIn(init, employees);
      if x in employees && x !in Elements(init) then
        ElementsAppend(found, x);
        found + [x]
      else found
  }

  /**
   * The guard of both membership operations: as many employees are found
   * as ids are requested iff every requested id is a stored employee and
   * no id is requested twice.
   */
  lemma AllFoundIff(ids: seq<Uuid>, employees: set<Uuid>)
    ensures |FindByIdIn(ids, employees)| == |ids|
        <==> (forall i :: 0 <= i < |ids| ==> ids[i] in employees) && Distinct(ids)
  {
    var found := FindByIdIn(ids, employees);
    ElementsCard(found);
    ElementsCard(ids);
    SubsetCard(Elements(ids) * employees, Elements(ids));
    if |found| == |ids| {
      SubsetSameSize(Elements(ids) * employees, Elements(ids));
      forall i | 0 <= i < |ids|
        ensures ids[i] in employees
      {
        assert ids[i] in Elements(ids);
      }
    }
    if (forall i :: 0 <= i < |ids| ==> ids[i] in employees) && Distinct(ids) {
      assert Elements(ids) * employees == Elements(ids);
    }
  }

  /** The projects and employees the membership operations work on. */
  class ProjectServiceImpl {
    var projects: map<Uuid, Project>
    var employees: set<Uuid>

    /** Every project is stored under its id and has only stored employees as members. */
    ghost predicate Valid()
      reads this
    {
      forall id :: id in projects ==> projects[id].id == id && projects[id].employees <= employees
    }

    constructor (projects: map<Uuid, Project>, employees: set<Uuid>)
      requires forall id :: id in projects ==> projects[id].id == id && projects[id].employees <= employees
      ensures Valid()
      ensures this.projects == projects && this.employees == employees
    {
      this.projects := projects;
      this.employees := employees;
    }

    /** `findById`: the stored project, or ProjectNotFound. */
    method FindById(projectId: Uuid) returns (r: Result<Project, ProjectError>)
      ensures r.Success? <==> projectId in projects
      ensures r.Success? ==> r.value == projects[projectId]
      ensures r.Failure? ==> r.error == ProjectNotFound
    {
      if projectId in projects {
        r := Success(projects[projectId]);
      } else {
        r := Failure(ProjectNotFound);
      }
    }

    /**
     * `addMembersToProject`: a missing project throws ProjectNotFound, a
     * request naming an unknown employee or an employee twice throws
     * IllegalState, and both leave everything as it was; otherwise the
     * requested employees join the project and every member stays.
     */
    method AddMembersToProject(projectId: Uuid, membersList: seq<Uuid>) returns (r: Result<Project, ProjectError>)
      requires Valid()
      modifies this
      ensures Valid() && employees == old(employees)
      ensures projectId !in old(projects) ==> r == Failure(ProjectNotFound)
      ensures projectId in old(projects) ==>
        (r.Success? <==> (forall i :: 0 <= i < |membersList| ==> membersList[i] in employees) && Distinct(membersList))
      ensures projectId in old(projects) && r.Failure? ==> r.error == IllegalState
      ensures r.Failure? ==> projects == old(projects)
      ensures r.Success? ==>
        && projects == old(projects)[projectId := r.value]
        && r.value == old(projects[projectId]).(employees := old(projects[projectId].employees) + Elements(membersList))
      ensures r.Success? ==> old(projects[projectId].employees) <= r.value.employees
      ensures r.Success? && Elements(membersList) <= old(projects[projectId].employees) ==> projects == old(projects)
    {
      if projectId !in projects {
        return Failure(ProjectNotFound);
      }
      var project := projects[projectId];
      var employeesToAdd := FindByIdIn(membersList, employees);
      AllFoundIff(membersList, employees);
      if |employeesToAdd| != |membersList| {
        return Failure(IllegalState);
      }
      var currentEmployees := project.employees + Elements(employeesToAdd);
      assert Elements(employeesToAdd) == Elements(membersList) by {
        forall x | x in Elements(membersList)
          ensures x in employees
        {
          var k :| 0 <= k < |membersList| && membersList[k] == x;
          assert membersList[k] in employees;
        }
      }
      if Elements(membersList) <= project.employees {
        assert project.(employees := currentEmployees) == project;
        assert projects[projectId := project] == projects;
      }
      project := project.(employees := currentEmployees);
      projects := projects[projectId := project];
      r := Success(project);
    }

    /**
     * `removeMembersFromProject`: the same two failures as adding; otherwise
     * the found employees are removed one by one and the members the request
     * does not name remain.
     */
    method RemoveMembersFromProject(projectId: Uuid, membersList: seq<Uuid>) returns (r: Result<Project, ProjectError>)
      requires Valid()
      modifies this
      ensures Valid() && employees == old(employees)
      ensures projectId !in old(projects) ==> r == Failure(ProjectNotFound)
      ensures projectId in old(projects) ==>
        (r.Success? <==> (forall i :: 0 <= i < |membersList| ==> membersList[i] in employees) && Distinct(membersList))
      ensures projectId in old(projects) && r.Failure? ==> r.error == IllegalState
      ensures r.Failure? ==> projects == old(projects)
      ensures r.Success? ==>
        && projects == old(projects)[projectId := r.value]
        && r.value == old(projects[projectId]).(employees := old(projects[projectId].employees) - Elements(membersList))
      ensures r.Success? ==> forall e :: e !in Elements(membersList) ==>
        (e in r.value.employees <==> e in old(projects[projectId].employees))
      ensures r.Success? ==> forall e :: e in Elements(membersList) ==> e !in r.value.employees
    {
      if projectId !in projects {
        return Failure(ProjectNotFound);
      }
      var project := projects[projectId];
      var employeesToRemove := FindByIdIn(membersList, employees);
      AllFoundIff(membersList, employees);
      if |employeesToRemove| != |membersList| {
        return Failure(IllegalState);
      }
      var currentEmployees := project.employees;
      var i := 0;
      while i < |employeesToRemove|
        invariant 0 <= i <= |employeesToRemove|
        invariant currentEmployees == project.employees - Elements(employeesToRemove[..i])
        invariant unchanged(this)
      {
        ElementsAppend(employeesToRemove[..i], employeesToRemove[i]);
        assert employeesToRemove[..i + 1] == employeesToRemove[..i] + [employeesToRemove[i]];
        currentEmployees := currentEmployees - {employeesToRemove[i]};
        i := i + 1;
      }
      assert employeesToRemove[..i] == employeesToRemove;
      assert Elements(membersList) <= employees by {
        forall x | x in Elements(membersList)
          ensures x in employees
        {
          var k :| 0 <= k < |membersList| && membersList[k] == x;
          assert membersList[k] in employees;
        }
      }
      project := project.(employees := currentEmployees);
      projects := projects[projectId := project];
      r := Success(project);
    }
  }
}
